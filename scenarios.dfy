/** The usage sequences of app/dao/tests/test_dao.py and of the demonstration
    at the foot of dao/db.py, run against the repository classes on a fresh
    in-memory database, with the results their assertions expect. */
module Scenarios {
  import opened Models
  import Store
  import opened Report
  import Db
  import LegacyDb

  const Hello: User := User(1, Some("hello"), Some("first"), Some("second"))

  /** A table of one user reads back as exactly that user. */
  lemma SingleRow(users: map<int, User>, u: User)
    requires users == map[u.id := u]
    ensures Store.Rows(users) == [u]
  {
    var r := Store.Rows(users);
    assert r[0] in users.Values;
    assert users.Values == {u};
  }

  /** `TestUserDao.test_get_all`: `get_all` is `[]` on a fresh database and,
      after one `add`, lists exactly the added user with its four fields. */
  method UserGetAll() returns (before: seq<User>, after: seq<User>)
    ensures before == []
    ensures after == [User(1, Some("hello"), Some("first"), Some("second"))]
  {
    var conn := new Db.Connector("sqlite:///:memory:", Empty);
    var userDao := new Db.UserDao(conn);
    before := userDao.GetAll();
    var _ := userDao.Add(1, Some("hello"), Some("first"), Some("second"));
    assert conn.users == map[1 := Hello];
    after := userDao.GetAll();
    SingleRow(conn.users, Hello);
  }

  /** `TestUserDao.test_update_user`: updating only the username keeps the
      first and last names. */
  method UserUpdate() returns (updated: Option<User>)
    ensures updated == Some(User(1, Some("updated"), Some("first"), Some("second")))
  {
    var conn := new Db.Connector("sqlite:///:memory:", Empty);
    var userDao := new Db.UserDao(conn);
    var _ := userDao.Add(1, Some("hello"), Some("first"), Some("second"));
    var _ := userDao.Update(1, Some("updated"), None, None);
    updated := userDao.GetById(1);
  }

  /** `TestCommandDao.test_get_all`: two commands with distinct ids and names
      are both stored. */
  method CommandGetAll() returns (before: seq<Command>, after: seq<Command>)
    ensures before == []
    ensures |after| == 2
    ensures Command(1, "help") in after && Command(2, "say") in after
  {
    var conn := new Db.Connector("sqlite:///:memory:", Empty);
    assert conn.commands == map[];
    var commandDao := new Db.CommandDao(conn);
    before := commandDao.GetAll();
    var _ := commandDao.Add(1, Some("help"));
    var _ := commandDao.Add(2, Some("say"));
    assert conn.commands == map[1 := Command(1, "help"), 2 := Command(2, "say")];
    after := commandDao.GetAll();
  }

  /** Key order of a two-key table. */
  lemma SortedPair()
    ensures Store.SortedInts({1, 2}) == [1, 2]
  {
    var two := Store.SortedInts({1, 2});
    assert two[0] in {1, 2} && two[1] in {1, 2} && two[0] < two[1];
  }

  /** Joining a single user yields that user's rows. */
  lemma JoinFromSingle(t: Tables, u: int)
    requires u in t.users
    ensures JoinFrom(t, [u]) == RowsOf(t, u)
  {
    var us: seq<int> := [u];
    assert us[1..] == [];
  }

  /** Joining two users yields the first user's rows, then the second's. */
  lemma JoinFromPair(t: Tables, u: int, v: int)
    requires u in t.users && v in t.users
    ensures JoinFrom(t, [u, v]) == RowsOf(t, u) + RowsOf(t, v)
  {
    JoinFromSingle(t, v);
    var us: seq<int> := [u, v];
    assert us[1..] == [v];
  }

  /** One user and one command, linked by one `statistics` row. */
  ghost predicate OneUsageShape(t: Tables) {
    t.users.Keys == {1} && t.commands.Keys == {1} && t.stats.Keys == {StatKey(1, 1)}
  }

  /** The joined rows of such a database: the single row of user 1. */
  lemma OneUsageJoin(t: Tables)
    requires OneUsageShape(t)
    ensures Join(t) == [JoinedRow(1, t.users[1].username, t.commands[1].name, t.stats[StatKey(1, 1)])]
  {
    assert Store.SortedInts({1}) == [1];
    assert CommandsOf(t, 1) == {1} by {
      assert StatKey(1, 1) in t.stats;
    }
    assert Join(t) == JoinFrom(t, [1]);
    JoinFromSingle(t, 1);
  }

  /** The report over one user, one command and one usage row: one record
      holding one entry with that row's count. */
  lemma SingleUsageReport(t: Tables)
    requires OneUsageShape(t)
    ensures Group(Join(t)) == [UserStatistics(1, t.users[1].username, [Entry(t.commands[1].name, t.stats[StatKey(1, 1)])])]
  {
    OneUsageJoin(t);
    var row := JoinedRow(1, t.users[1].username, t.commands[1].name, t.stats[StatKey(1, 1)]);
    GroupSnoc([], row);
    assert [] + [row] == [row];
  }

  /** `TestStatisticsDao.setUp`: a fresh database with user 1 and command
      `help`, and the three repositories over it. */
  method StatisticsSetUp() returns (conn: Db.Connector, userDao: Db.UserDao,
                                    commandDao: Db.CommandDao, statDao: Db.StatisticsDao)
    ensures fresh(conn) && conn.Valid()
    ensures userDao.conn == conn && commandDao.conn == conn && statDao.conn == conn
    ensures conn.users == map[1 := Hello] && conn.commands == map[1 := Command(1, "help")]
    ensures conn.stats == map[]
  {
    conn := new Db.Connector("sqlite:///:memory:", Empty);
    userDao := new Db.UserDao(conn);
    commandDao := new Db.CommandDao(conn);
    statDao := new Db.StatisticsDao(conn);
    var _ := userDao.Add(1, Some("hello"), Some("first"), Some("second"));
    var _ := commandDao.Add(1, Some("help"));
    assert conn.commands == map[1 := Command(1, "help")];
  }

  /** The tables after the set-up and three `increment(1, 1)` calls. */
  lemma SingleUsageTables(t: Tables)
    requires t.users == map[1 := Hello] && t.commands == map[1 := Command(1, "help")]
    requires t.stats == Store.IncrementTimes(map[], 1, 1, 3)
    ensures Group(Join(t)) == [UserStatistics(1, Some("hello"), [Entry("help", 3)])]
  {
    Store.IncrementTimesCount(map[], 1, 1, 3);
    assert Store.CountOf(t.stats, StatKey(1, 1)) == 3;
    SingleUsageReport(t);
  }

  /** `TestStatisticsDao.test_get_all`: after the set-up the report is empty,
      and three `increment(1, 1)` calls make it one record whose one entry
      counts 3. */
  method StatisticsGetAll() returns (before: seq<UserStatistics>, after: seq<UserStatistics>)
    ensures before == []
    ensures after == [UserStatistics(1, Some("hello"), [Entry("help", 3)])]
  {
    var conn, _, _, statDao := StatisticsSetUp();
    before := statDao.GetAll();
    ReportEmpty(conn.Tables());
    var _ := statDao.Increment(1, 1);
    var _ := statDao.Increment(1, 1);
    var _ := statDao.Increment(1, 1);
    after := statDao.GetAll();
    SingleUsageTables(conn.Tables());
  }

  /** Users 1 and 2 and commands 1 and 2; user 1 used command 1, user 2 both. */
  ghost predicate TwoUserShape(t: Tables) {
    && t.users.Keys == {1, 2} && t.commands.Keys == {1, 2}
    && t.stats.Keys == {StatKey(1, 1), StatKey(2, 2), StatKey(2, 1)}
  }

  /** The commands each user of such a database has used. */
  lemma TwoUserCommands(t: Tables)
    requires TwoUserShape(t)
    ensures CommandsOf(t, 1) == {1} && CommandsOf(t, 2) == {1, 2}
  {
    assert StatKey(1, 2) !in t.stats;
    assert StatKey(1, 1) in t.stats && StatKey(2, 1) in t.stats && StatKey(2, 2) in t.stats;
  }

  /** What the query yields for user 1 of such a database. */
  lemma FirstUserRows(t: Tables)
    requires TwoUserShape(t)
    ensures RowsOf(t, 1) == [JoinedRow(1, t.users[1].username, t.commands[1].name, t.stats[StatKey(1, 1)])]
  {
    TwoUserCommands(t);
    assert Store.SortedInts({1}) == [1];
  }

  /** What the query yields for user 2 of such a database. */
  lemma SecondUserRows(t: Tables)
    requires TwoUserShape(t)
    ensures RowsOf(t, 2) == [JoinedRow(2, t.users[2].username, t.commands[1].name, t.stats[StatKey(2, 1)]),
                             JoinedRow(2, t.users[2].username, t.commands[2].name, t.stats[StatKey(2, 2)])]
  {
    var cs := Store.SortedInts(CommandsOf(t, 2));
    assert cs == [1, 2] by {
      TwoUserCommands(t);
      SortedPair();
    }
    assert RowsOf(t, 2) == [RowFor(t, 2, cs[0]), RowFor(t, 2, cs[1])];
  }

  /** The joined rows of such a database: user 1's row, then user 2's two rows
      in ascending command id. */
  lemma TwoUserJoin(t: Tables)
    requires TwoUserShape(t)
    ensures Join(t) == [JoinedRow(1, t.users[1].username, t.commands[1].name, t.stats[StatKey(1, 1)]),
                        JoinedRow(2, t.users[2].username, t.commands[1].name, t.stats[StatKey(2, 1)]),
                        JoinedRow(2, t.users[2].username, t.commands[2].name, t.stats[StatKey(2, 2)])]
  {
    TwoUserJoinParts(t);
    FirstUserRows(t);
    SecondUserRows(t);
  }

  /** Such a database joins user 1's rows, then user 2's. */
  lemma TwoUserJoinParts(t: Tables)
    requires TwoUserShape(t)
    ensures Join(t) == RowsOf(t, 1) + RowsOf(t, 2)
  {
    SortedPair();
    assert t.users.Keys == {1, 2};
    JoinFromPair(t, 1, 2);
  }

  /** A row of user 1 and a row of user 2 group into two records. */
  lemma GroupTwo(a: JoinedRow, b: JoinedRow)
    requires a.userId == 1 && b.userId == 2
    ensures Group([a, b]) == [UserStatistics(1, a.username, [EntryOf(a)]), UserStatistics(2, b.username, [EntryOf(b)])]
  {
    var g1 := [UserStatistics(1, a.username, [EntryOf(a)])];
    assert Group([a]) == g1 by {
      GroupSnoc([], a);
      assert [] + [a] == [a];
    }
    GroupSnoc([a], b);
    assert [a] + [b] == [a, b];
    assert IndexOf(g1, 2) == None;
  }

  /** Three rows, the first of user 1 and the next two of user 2, group into
      two records, the second holding two entries in row order. */
  lemma GroupThree(a: JoinedRow, b: JoinedRow, c: JoinedRow)
    requires a.userId == 1 && b.userId == 2 && c.userId == 2
    ensures Group([a, b, c]) == [UserStatistics(1, a.username, [EntryOf(a)]),
                                 UserStatistics(2, b.username, [EntryOf(b), EntryOf(c)])]
  {
    var g2 := [UserStatistics(1, a.username, [EntryOf(a)]), UserStatistics(2, b.username, [EntryOf(b)])];
    GroupTwo(a, b);
    GroupSnoc([a, b], c);
    assert [a, b] + [c] == [a, b, c];
    assert IndexOf(g2, 2) == Some(1) by {
      assert g2[1..] == [UserStatistics(2, b.username, [EntryOf(b)])];
    }
    assert [EntryOf(b)] + [EntryOf(c)] == [EntryOf(b), EntryOf(c)];
  }

  /** The report over such a database: user 1's record with one entry, then
      user 2's record with two, in ascending command id. */
  lemma TwoUserReport(t: Tables)
    requires TwoUserShape(t)
    ensures Group(Join(t)) ==
      [UserStatistics(1, t.users[1].username, [Entry(t.commands[1].name, t.stats[StatKey(1, 1)])]),
       UserStatistics(2, t.users[2].username, [Entry(t.commands[1].name, t.stats[StatKey(2, 1)]),
                                               Entry(t.commands[2].name, t.stats[StatKey(2, 2)])])]
  {
    TwoUserJoin(t);
    GroupThree(JoinedRow(1, t.users[1].username, t.commands[1].name, t.stats[StatKey(1, 1)]),
               JoinedRow(2, t.users[2].username, t.commands[1].name, t.stats[StatKey(2, 1)]),
               JoinedRow(2, t.users[2].username, t.commands[2].name, t.stats[StatKey(2, 2)]));
  }

  /** Two users (`alice`, `bob`) and two commands (`help`, `say`) on a fresh
      database, with the statistics repository over it. */
  method TwoUserSetUp() returns (conn: Db.Connector, statDao: Db.StatisticsDao)
    ensures fresh(conn) && conn.Valid() && statDao.conn == conn
    ensures conn.users == map[1 := User(1, Some("alice"), None, None), 2 := User(2, Some("bob"), None, None)]
    ensures conn.commands == map[1 := Command(1, "help"), 2 := Command(2, "say")]
    ensures conn.stats == map[]
  {
    conn := new Db.Connector("sqlite:///:memory:", Empty);
    var userDao := new Db.UserDao(conn);
    var commandDao := new Db.CommandDao(conn);
    statDao := new Db.StatisticsDao(conn);
    var _ := userDao.Add(1, Some("alice"), None, None);
    var _ := userDao.Add(2, Some("bob"), None, None);
    assert conn.users == map[1 := User(1, Some("alice"), None, None), 2 := User(2, Some("bob"), None, None)];
    var _ := commandDao.Add(1, Some("help"));
    var _ := commandDao.Add(2, Some("say"));
    assert conn.commands == map[1 := Command(1, "help"), 2 := Command(2, "say")];
  }

  /** The tables after the three increments of the two-user scenario. */
  lemma TwoUserTables(t: Tables)
    requires t.users == map[1 := User(1, Some("alice"), None, None), 2 := User(2, Some("bob"), None, None)]
    requires t.commands == map[1 := Command(1, "help"), 2 := Command(2, "say")]
    requires t.stats == Store.Increment(Store.Increment(Store.Increment(map[], 1, 1), 2, 2), 2, 1)
    ensures Group(Join(t)) == [UserStatistics(1, Some("alice"), [Entry("help", 1)]),
                               UserStatistics(2, Some("bob"), [Entry("help", 1), Entry("say", 1)])]
  {
    ThreeIncrements(t.stats);
    assert TwoUserShape(t);
    TwoUserReport(t);
  }

  /** `increment(1, 1)`, `increment(2, 2)` and `increment(2, 1)` from no rows
      leave three rows, each counting 1. */
  lemma ThreeIncrements(stats: map<StatKey, int>)
    requires stats == Store.Increment(Store.Increment(Store.Increment(map[], 1, 1), 2, 2), 2, 1)
    ensures stats.Keys == {StatKey(1, 1), StatKey(2, 2), StatKey(2, 1)}
    ensures stats[StatKey(1, 1)] == 1 && stats[StatKey(2, 2)] == 1 && stats[StatKey(2, 1)] == 1
  {
    assert Store.CountOf(stats, StatKey(1, 1)) == 1;
    assert Store.CountOf(stats, StatKey(2, 2)) == 1;
    assert Store.CountOf(stats, StatKey(2, 1)) == 1;
  }

  /** `increment(1, 1)`, `increment(2, 2)` and `increment(2, 1)`: the report
      lists user 1 with `help` once, then user 2 with `help` and `say` once
      each. */
  method TwoUsers() returns (report: seq<UserStatistics>)
    ensures report == [UserStatistics(1, Some("alice"), [Entry("help", 1)]),
                       UserStatistics(2, Some("bob"), [Entry("help", 1), Entry("say", 1)])]
  {
    var conn, statDao := TwoUserSetUp();
    var _ := statDao.Increment(1, 1);
    var _ := statDao.Increment(2, 2);
    var _ := statDao.Increment(2, 1);
    report := statDao.GetAll();
    TwoUserTables(conn.Tables());
  }

  /** A second `add` with an id already in use raises and rolls back: the
      table still holds the first row, unchanged. */
  method DuplicateAdd() returns (outcome: Store.Outcome, rows: seq<User>)
    ensures outcome == Store.Raised(Store.IntegrityError)
    ensures rows == [Hello]
  {
    var conn := new Db.Connector("sqlite:///:memory:", Empty);
    var userDao := new Db.UserDao(conn);
    var _ := userDao.Add(1, Some("hello"), Some("first"), Some("second"));
    outcome := userDao.Add(1, Some("other"), None, None);
    assert conn.users == map[1 := Hello];
    rows := userDao.GetAll();
    SingleRow(conn.users, Hello);
  }

  /** `delete` of an id with no row raises, and a later `get_by_id` still
      finds nothing. */
  method DeleteMissing() returns (outcome: Store.Outcome, row: Option<User>)
    ensures outcome == Store.Raised(Store.UnmappedInstance)
    ensures row == None
  {
    var conn := new Db.Connector("sqlite:///:memory:", Empty);
    var userDao := new Db.UserDao(conn);
    outcome := userDao.Delete(7);
    row := userDao.GetById(7);
  }

  /** The demonstration of dao/db.py: an empty listing, one user after `add`,
      and `get_by_id` showing the new username beside the old names. */
  method LegacyDemo() returns (first: seq<User>, second: seq<User>, byId: Option<User>)
    ensures first == []
    ensures second == [Hello]
    ensures byId == Some(User(1, Some("updated"), Some("first"), Some("second")))
  {
    var conn := new LegacyDb.Connector("sqlite:///:memory:", map[]);
    var userDao := new LegacyDb.UserDao(conn);
    first := userDao.GetAll();
    var _ := userDao.Add(1, Some("hello"), Some("first"), Some("second"));
    second := userDao.GetAll();
    SingleRow(conn.users, Hello);
    var firstId := second[0].id;
    var _ := userDao.Update(firstId, Some("updated"), None, None);
    byId := userDao.GetById(firstId);
  }
}
