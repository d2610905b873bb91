/** What each repository operation of app/dao/db.py does to the table it owns,
    as pure functions over the table maps, and what `session_scope` makes of
    the work done inside it. The classes in module Db (and LegacyDb) are
    specified by these functions. */
module Store {
  import opened Models

  /** The exceptions that escape a repository call. `IntegrityError` is a
      constraint the database rejects at flush (a duplicate primary key, a
      duplicate or NULL `commands.name`); `UnmappedInstance` is what the
      session raises when asked to delete a row that was not found. */
  datatype DbError = IntegrityError | UnmappedInstance

  /** The work done inside one session: the tables it would commit, or the
      exception it raised. */
  datatype Result<T> = Ok(value: T) | Err(error: DbError)

  /** What the caller of a mutating repository method observes. */
  datatype Outcome = Committed | Raised(error: DbError)

  // ---------------------------------------------------------------------------
  // session_scope

  /** The committed state after a `with session_scope()` block: the session's
      work when the block completes (commit), the state before it when the
      block raises (rollback). Nothing in between is ever committed. */
  function Scope<S>(before: S, work: Result<S>): (after: S)
    ensures work.Ok? ==> after == work.value
    ensures work.Err? ==> after == before
  {
    match work
    case Ok(s) => s
    case Err(_) => before
  }

  /** The block's exception is re-raised unchanged; otherwise the call returns. */
  function OutcomeOf<S>(work: Result<S>): (o: Outcome)
    ensures o.Committed? <==> work.Ok?
    ensures work.Err? ==> o == Raised(work.error)
  {
    match work
    case Ok(_) => Committed
    case Err(e) => Raised(e)
  }

  // ---------------------------------------------------------------------------
  // Row order of a query without ORDER BY: ascending primary key, one order
  // the engine may return.

  lemma {:induction false} MinExists(s: set<int>)
    requires s != {}
    ensures exists m :: m in s && forall x | x in s :: m <= x
    decreases |s|
  {
    if forall x :: x !in s {
      assert false;
    }
    var y :| y in s;
    var rest := s - {y};
    if rest == {} {
      assert s == {y};
    } else {
      MinExists(rest);
      var m :| m in rest && forall x | x in rest :: m <= x;
      var least := if y < m then y else m;
      assert forall x | x in s :: x == y || x in rest;
      assert least in s && forall x | x in s :: least <= x;
    }
  }

  /** The least key of a non-empty set of keys. */
  function MinOf(s: set<int>): (m: int)
    requires s != {}
    ensures m in s && forall x | x in s :: m <= x
  {
    MinExists(s);
    var m :| m in s && forall x | x in s :: m <= x;
    m
  }

  /** The keys of a table in ascending order, each once. */
  function SortedInts(s: set<int>): (r: seq<int>)
    ensures |r| == |s|
    ensures forall x :: x in r <==> x in s
    ensures forall i, j | 0 <= i < j < |r| :: r[i] < r[j]
    decreases |s|
  {
    if s == {} then []
    else
      var m := MinOf(s);
      var rest := SortedInts(s - {m});
      SortedCons(s, m, rest);
      [m] + rest
  }

  /** The least key followed by the other keys in ascending order is all the
      keys in ascending order. */
  lemma SortedCons(s: set<int>, m: int, rest: seq<int>)
    requires m in s && forall x | x in s :: m <= x
    requires |rest| == |s - {m}| && forall x :: x in rest <==> x in s - {m}
    requires forall i, j | 0 <= i < j < |rest| :: rest[i] < rest[j]
    ensures |[m] + rest| == |s|
    ensures forall x :: x in [m] + rest <==> x in s
    ensures forall i, j | 0 <= i < j < |[m] + rest| :: ([m] + rest)[i] < ([m] + rest)[j]
  {
    var r := [m] + rest;
    forall i, j | 0 <= i < j < |r| ensures r[i] < r[j] {
      if i == 0 {
        assert r[j] == rest[j - 1] && r[j] in s - {m};
      } else {
        assert r[i] == rest[i - 1] && r[j] == rest[j - 1];
      }
    }
  }

  // ---------------------------------------------------------------------------
  // BaseDao: get_all, get_by_id, delete, generic in the entity kind

  /** `get_all`: one field snapshot per row of the table, in key order; `[]`
      on an empty table. */
  function Rows<V(==)>(table: map<int, V>): (r: seq<V>)
    ensures |r| == |table|
    ensures r == [] <==> table == map[]
    ensures forall id | id in table :: table[id] in r
    ensures forall i | 0 <= i < |r| :: r[i] in table.Values
  {
    var ids := SortedInts(table.Keys);
    assert |table.Keys| == |table|;
    var r := seq(|ids|, i requires 0 <= i < |ids| => table[ids[i]]);
    assert forall id | id in table :: table[id] in r by {
      forall id | id in table ensures table[id] in r {
        var i :| 0 <= i < |ids| && ids[i] == id;
        assert r[i] == table[id];
      }
    }
    r
  }

  /** Position `i` of `get_all` holds the row under the `i`-th smallest key. */
  lemma RowAt<V>(table: map<int, V>, i: int)
    requires 0 <= i < |table|
    ensures var ids := SortedInts(table.Keys);
      i < |ids| && ids[i] in table && Rows(table)[i] == table[ids[i]]
  {
    assert |table.Keys| == |table|;
  }

  /** `UserDao.get_all` lists the users in ascending `id`, each exactly once. */
  lemma UserRowsAscending(users: map<int, User>)
    requires UsersKeyed(users)
    ensures var r := Rows(users);
      forall i, j | 0 <= i < j < |r| :: r[i].id < r[j].id
  {
    var r := Rows(users);
    forall i, j | 0 <= i < j < |r| ensures r[i].id < r[j].id {
      RowAt(users, i);
      RowAt(users, j);
    }
  }

  /** `CommandDao.get_all` lists the commands in ascending `id`, each exactly once. */
  lemma CommandRowsAscending(commands: map<int, Command>)
    requires CommandsKeyed(commands)
    ensures var r := Rows(commands);
      forall i, j | 0 <= i < j < |r| :: r[i].id < r[j].id
  {
    var r := Rows(commands);
    forall i, j | 0 <= i < j < |r| ensures r[i].id < r[j].id {
      RowAt(commands, i);
      RowAt(commands, j);
    }
  }

  /** `get_by_id`: the snapshot of the row stored under `id`, or None when
      there is none (not an error). */
  function GetById<V>(table: map<int, V>, id: int): (r: Option<V>)
    ensures r.None? <==> id !in table
    ensures r.Some? ==> r.value == table[id]
  {
    if id in table then Some(table[id]) else None
  }

  /** `delete`: removes exactly the row stored under `id`. A missing row makes
      the lookup find nothing, and asking the session to delete nothing
      raises. */
  function DeleteRow<V>(table: map<int, V>, id: int): (r: Result<map<int, V>>)
    ensures r.Ok? <==> id in table
    ensures r.Err? ==> r.error == UnmappedInstance
    ensures r.Ok? ==> r.value.Keys == table.Keys - {id}
    ensures r.Ok? ==> forall k | k in r.value :: r.value[k] == table[k]
  {
    if id in table then Ok(table - {id}) else Err(UnmappedInstance)
  }

  // ---------------------------------------------------------------------------
  // UserDao

  /** `UserDao.add`: inserts a new row; an existing `id` violates the primary key. */
  function AddUser(users: map<int, User>, id: int, username: Option<string>,
                   firstName: Option<string>, lastName: Option<string>): (r: Result<map<int, User>>)
    ensures r.Ok? <==> id !in users
    ensures r.Err? ==> r.error == IntegrityError
    ensures UsersKeyed(users) && r.Ok? ==> UsersKeyed(r.value)
  {
    if id in users then Err(IntegrityError)
    else Ok(users[id := User(id, username, firstName, lastName)])
  }

  /** `x if x is not None else current`: None leaves a column unchanged. */
  function Patch(current: Option<string>, arg: Option<string>): (r: Option<string>)
    ensures arg.Some? ==> r == arg
    ensures arg.None? ==> r == current
  {
    if arg.Some? then arg else current
  }

  /** `UserDao.update`: on an existing row, each non-None argument overwrites
      its column and each None leaves it as it was; on a missing row it falls
      back to `add` with the same arguments. */
  function UpdateUser(users: map<int, User>, id: int, username: Option<string>,
                      firstName: Option<string>, lastName: Option<string>): (r: Result<map<int, User>>)
    ensures r.Ok?
    ensures r.value.Keys == users.Keys + {id}
    ensures forall k | k in users && k != id :: r.value[k] == users[k]
    ensures id in users ==> r.value[id].id == users[id].id
    ensures id !in users ==> r.value[id].id == id
    ensures r.value[id].username == if username.Some? || id !in users then username else users[id].username
    ensures r.value[id].firstName == if firstName.Some? || id !in users then firstName else users[id].firstName
    ensures r.value[id].lastName == if lastName.Some? || id !in users then lastName else users[id].lastName
    ensures UsersKeyed(users) ==> UsersKeyed(r.value)
  {
    if id in users then
      var user := users[id];
      Ok(users[id := user.(username := Patch(user.username, username),
                           firstName := Patch(user.firstName, firstName),
                           lastName := Patch(user.lastName, lastName))])
    else
      AddUser(users, id, username, firstName, lastName)
  }

  /** After a successful `add`, `get_by_id` returns exactly the four supplied
      fields, every other row reads as before, and `get_all` has grown by one. */
  lemma AddThenRead(users: map<int, User>, id: int, username: Option<string>,
                    firstName: Option<string>, lastName: Option<string>)
    requires id !in users
    ensures AddUser(users, id, username, firstName, lastName).Ok?
    ensures var after := AddUser(users, id, username, firstName, lastName).value;
      && GetById(after, id) == Some(User(id, username, firstName, lastName))
      && (forall k | k != id :: GetById(after, k) == GetById(users, k))
      && |Rows(after)| == |Rows(users)| + 1
  {
    var after := AddUser(users, id, username, firstName, lastName).value;
    assert after.Keys == users.Keys + {id};
    assert |after.Keys| == |users.Keys| + 1;
  }

  /** `update` on a missing id has exactly the effect of `add` with the same
      arguments. */
  lemma UpdateMissingIsAdd(users: map<int, User>, id: int, username: Option<string>,
                           firstName: Option<string>, lastName: Option<string>)
    requires id !in users
    ensures UpdateUser(users, id, username, firstName, lastName)
         == AddUser(users, id, username, firstName, lastName)
  {
  }

  // ---------------------------------------------------------------------------
  // CommandDao

  /** `CommandDao.add`: inserts a new command. A NULL name, an existing `id`
      or a name already in use is rejected by the schema. */
  function AddCommand(commands: map<int, Command>, id: int, name: Option<string>): (r: Result<map<int, Command>>)
    ensures r.Ok? <==> name.Some? && id !in commands && forall k | k in commands :: commands[k].name != name.value
    ensures r.Err? ==> r.error == IntegrityError
    ensures r.Ok? ==> r.value.Keys == commands.Keys + {id} && r.value[id] == Command(id, name.value)
    ensures r.Ok? ==> forall k | k in commands :: r.value[k] == commands[k]
    ensures CommandsKeyed(commands) && NamesUnique(commands) && r.Ok? ==>
              CommandsKeyed(r.value) && NamesUnique(r.value)
  {
    if name.None? || id in commands || exists k | k in commands :: commands[k].name == name.value
    then Err(IntegrityError)
    else Ok(commands[id := Command(id, name.value)])
  }

  /** The first key in `ids` whose command is called `name`. */
  function FindName(commands: map<int, Command>, ids: seq<int>, name: string): (r: Option<int>)
    requires forall i | 0 <= i < |ids| :: ids[i] in commands
    ensures r.Some? ==> r.value in ids && commands[r.value].name == name
    ensures r.Some? ==> exists i | 0 <= i < |ids| :: ids[i] == r.value && forall k | 0 <= k < i :: commands[ids[k]].name != name
    ensures r.None? <==> forall i | 0 <= i < |ids| :: commands[ids[i]].name != name
  {
    if ids == [] then None
    else if commands[ids[0]].name == name then Some(ids[0])
    else
      var r := FindName(commands, ids[1..], name);
      if r.Some? then
        FirstMatchShift(commands, ids, name, r.value);
        r
      else r
  }

  /** A first match in `ids[1..]`, when `ids[0]` does not match, is a first
      match in `ids`. */
  lemma FirstMatchShift(commands: map<int, Command>, ids: seq<int>, name: string, id: int)
    requires ids != [] && forall i | 0 <= i < |ids| :: ids[i] in commands
    requires commands[ids[0]].name != name
    requires exists i | 0 <= i < |ids[1..]| :: ids[1..][i] == id && forall k | 0 <= k < i :: commands[ids[1..][k]].name != name
    ensures exists i | 0 <= i < |ids| :: ids[i] == id && forall k | 0 <= k < i :: commands[ids[k]].name != name
  {
    var i :| 0 <= i < |ids[1..]| && ids[1..][i] == id && forall k | 0 <= k < i :: commands[ids[1..][k]].name != name;
    assert ids[i + 1] == id;
    forall k | 0 <= k < i + 1 ensures commands[ids[k]].name != name {
      if k > 0 {
        assert ids[k] == ids[1..][k - 1];
      }
    }
  }

  /** `CommandDao.get_by_name`: the first row whose name matches, or None when
      no command has that name. */
  function GetByName(commands: map<int, Command>, name: string): (r: Option<Command>)
    ensures r.None? <==> forall k | k in commands :: commands[k].name != name
    ensures r.Some? ==> r.value in commands.Values && r.value.name == name
  {
    var ids := SortedInts(commands.Keys);
    match FindName(commands, ids, name)
    case None => None
    case Some(k) => Some(commands[k])
  }

  /** Because names are unique, `get_by_name` finds THE command of that name. */
  lemma GetByNameUnique(commands: map<int, Command>, id: int)
    requires NamesUnique(commands) && id in commands
    ensures GetByName(commands, commands[id].name) == Some(commands[id])
  {
    var r := GetByName(commands, commands[id].name);
    var k :| k in commands && commands[k] == r.value;
    assert k == id;
  }

  /** After a successful `add`, `get_by_name` resolves the new name to the new row. */
  lemma AddCommandThenRead(commands: map<int, Command>, id: int, name: string)
    requires CommandsKeyed(commands) && NamesUnique(commands)
    requires AddCommand(commands, id, Some(name)).Ok?
    ensures var after := AddCommand(commands, id, Some(name)).value;
      GetByName(after, name) == Some(Command(id, name)) && GetById(after, id) == Some(Command(id, name))
  {
    var after := AddCommand(commands, id, Some(name)).value;
    GetByNameUnique(after, id);
  }

  // ---------------------------------------------------------------------------
  // StatisticsDao.increment

  /** The count of a (user, command) pair, 0 when it has no row. */
  function CountOf(stats: map<StatKey, int>, k: StatKey): int {
    if k in stats then stats[k] else 0
  }

  /** `increment`: create-or-add-one on the key (userId, commandId). An absent
      pair gets one new row with count 1, a present pair gets exactly one more;
      every other row is untouched. */
  function Increment(stats: map<StatKey, int>, userId: int, commandId: int): (r: map<StatKey, int>)
    ensures r.Keys == stats.Keys + {StatKey(userId, commandId)}
    ensures CountOf(r, StatKey(userId, commandId)) == CountOf(stats, StatKey(userId, commandId)) + 1
    ensures forall k | k in stats && k != StatKey(userId, commandId) :: r[k] == stats[k]
    ensures forall k | k in stats :: r[k] >= stats[k]
    ensures CountsPositive(stats) ==> CountsPositive(r)
  {
    var key := StatKey(userId, commandId);
    if key in stats then stats[key := stats[key] + 1] else stats[key := 1]
  }

  /** `n` calls of `increment(userId, commandId)` in a row: they create the
      pair's row when `n > 0`, leave every other row as it was and keep every
      count at least 1. */
  function IncrementTimes(stats: map<StatKey, int>, userId: int, commandId: int, n: nat): (r: map<StatKey, int>)
    ensures r.Keys == stats.Keys + (if n == 0 then {} else {StatKey(userId, commandId)})
    ensures forall k | k in stats && k != StatKey(userId, commandId) :: r[k] == stats[k]
    ensures CountsPositive(stats) ==> CountsPositive(r)
  {
    if n == 0 then stats else Increment(IncrementTimes(stats, userId, commandId, n - 1), userId, commandId)
  }

  /** `n` increments of one pair add exactly `n` to its count, so from no row
      they leave a row with count `n`. */
  lemma {:induction false} IncrementTimesCount(stats: map<StatKey, int>, userId: int, commandId: int, n: nat)
    ensures CountOf(IncrementTimes(stats, userId, commandId, n), StatKey(userId, commandId))
         == CountOf(stats, StatKey(userId, commandId)) + n
  {
    if n > 0 {
      IncrementTimesCount(stats, userId, commandId, n - 1);
      var before := IncrementTimes(stats, userId, commandId, n - 1);
      var key := StatKey(userId, commandId);
      assert IncrementTimes(stats, userId, commandId, n) == Increment(before, userId, commandId);
      assert CountOf(Increment(before, userId, commandId), key) == CountOf(before, key) + 1;
      assert CountOf(before, key) == CountOf(stats, key) + (n - 1);
    }
  }

  /** `increment` keeps the foreign keys intact when the caller has made sure
      that the user and the command exist, as the bot's command handler does. */
  lemma IncrementKeepsForeignKeys(t: Tables, userId: int, commandId: int)
    requires ForeignKeysHold(t)
    requires userId in t.users && commandId in t.commands
    ensures ForeignKeysHold(t.(stats := Increment(t.stats, userId, commandId)))
  {
    var r := Increment(t.stats, userId, commandId);
    forall k | k in r ensures k.userId in t.users && k.commandId in t.commands {
      if k != StatKey(userId, commandId) {
        assert k in t.stats;
      }
    }
  }
}
