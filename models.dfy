/** The schema of the bot's database: the tables `users`, `commands` and
    `statistics`, declared statically, and the constraints the schema states. */
module Models {

  datatype Option<+T> = None | Some(value: T)

  /** A row of `users`. `id` is the primary key; the three name columns are nullable. */
  datatype User = User(id: int, username: Option<string>, firstName: Option<string>, lastName: Option<string>)

  /** A row of `commands`. `name` is NOT NULL, so it is a plain string here. */
  datatype Command = Command(id: int, name: string)

  /** The composite primary key of `statistics`: (user_id, command_id). */
  datatype StatKey = StatKey(userId: int, commandId: int)

  /** The three tables. Each is a map from its primary key, so a table holds at
      most one row per key: the primary-key constraints (on `users.id`,
      `commands.id` and `statistics(user_id, command_id)`) hold by construction.
      `stats` maps a key to that row's `count` column. */
  datatype Tables = Tables(users: map<int, User>, commands: map<int, Command>, stats: map<StatKey, int>)

  /** A freshly created database. */
  const Empty: Tables := Tables(map[], map[], map[])

  /** Every user row is stored under its own `id`. */
  ghost predicate UsersKeyed(users: map<int, User>) {
    forall id | id in users :: users[id].id == id
  }

  /** Every command row is stored under its own `id`. */
  ghost predicate CommandsKeyed(commands: map<int, Command>) {
    forall id | id in commands :: commands[id].id == id
  }

  /** `commands.name` is UNIQUE. */
  ghost predicate NamesUnique(commands: map<int, Command>) {
    forall a, b | a in commands && b in commands && commands[a].name == commands[b].name :: a == b
  }

  /** The constraints the database itself enforces. */
  ghost predicate SchemaHolds(t: Tables) {
    UsersKeyed(t.users) && CommandsKeyed(t.commands) && NamesUnique(t.commands)
  }

  /** `statistics.user_id` references `users.id` and `statistics.command_id`
      references `commands.id`. */
  ghost predicate ForeignKeysHold(t: Tables) {
    forall k | k in t.stats :: k.userId in t.users && k.commandId in t.commands
  }

  /** Every stored `count` is at least 1. The schema does not say so (the column
      is a nullable Integer without default); only `increment` maintains it. */
  ghost predicate CountsPositive(stats: map<StatKey, int>) {
    forall k | k in stats :: stats[k] >= 1
  }

  /** `User.commands`: the commands linked to user `userId` through `statistics`. */
  function CommandsOf(t: Tables, userId: int): (r: set<int>)
    ensures forall c :: c in r <==> c in t.commands && StatKey(userId, c) in t.stats
  {
    var r := set k | k in t.stats && k.userId == userId && k.commandId in t.commands :: k.commandId;
    assert forall c | c in t.commands && StatKey(userId, c) in t.stats :: c in r by {
      forall c | c in t.commands && StatKey(userId, c) in t.stats ensures c in r {
        var k := StatKey(userId, c);
        assert k.commandId == c;
      }
    }
    r
  }

  /** `Command.usages`: the users linked to command `commandId` through `statistics`. */
  function UsagesOf(t: Tables, commandId: int): (r: set<int>)
    ensures forall u :: u in r <==> u in t.users && StatKey(u, commandId) in t.stats
  {
    var r := set k | k in t.stats && k.commandId == commandId && k.userId in t.users :: k.userId;
    assert forall u | u in t.users && StatKey(u, commandId) in t.stats :: u in r by {
      forall u | u in t.users && StatKey(u, commandId) in t.stats ensures u in r {
        var k := StatKey(u, commandId);
        assert k.userId == u;
      }
    }
    r
  }

  /** `User.commands` and `Command.usages` are the two sides of one relation:
      between an existing user and an existing command, each side holds the
      other exactly when their `statistics` row exists. */
  lemma ManyToMany(t: Tables, u: int, c: int)
    requires u in t.users && c in t.commands
    ensures c in CommandsOf(t, u) <==> StatKey(u, c) in t.stats
    ensures u in UsagesOf(t, c) <==> StatKey(u, c) in t.stats
    ensures c in CommandsOf(t, u) <==> u in UsagesOf(t, c)
  {
  }
}
