/** The usage report of `StatisticsDao.get_all` (app/dao/db.py): the inner
    join users x statistics x commands ordered by user id, and its reshaping
    into one record per user with a nested list of {cmd, count} entries. */
module Report {
  import opened Models
  import Store

  /** One tuple of the joined query: users.id, users.username, commands.name,
      statistics.count. */
  datatype JoinedRow = JoinedRow(userId: int, username: Option<string>, cmd: string, count: int)

  /** One entry of a record: a command name and its count. */
  datatype Entry = Entry(cmd: string, count: int)

  /** One record of the report: a user's id, username and entries. */
  datatype UserStatistics = UserStatistics(id: int, username: Option<string>, statistics: seq<Entry>)

  /** The `{cmd, count}` entry a row contributes: its command name and its count. */
  function EntryOf(row: JoinedRow): (e: Entry)
    ensures e.cmd == row.cmd && e.count == row.count
  {
    Entry(row.cmd, row.count)
  }

  function Entries(rows: seq<JoinedRow>): seq<Entry> {
    seq(|rows|, i requires 0 <= i < |rows| => EntryOf(rows[i]))
  }

  // ---------------------------------------------------------------------------
  // Reshaping: the loop over the joined rows, as a left fold

  /** Where the record of user `id` sits in the report built so far. */
  function IndexOf(report: seq<UserStatistics>, id: int): (r: Option<nat>)
    ensures r.Some? ==> r.value < |report| && report[r.value].id == id
    ensures r.None? <==> forall j | 0 <= j < |report| :: report[j].id != id
  {
    if report == [] then None
    else if report[0].id == id then Some(0)
    else match IndexOf(report[1..], id)
      case None => None
      case Some(j) => Some(j + 1)
  }

  /** One iteration: the first row of a user opens a record holding that
      row's entry; every later row of that user appends its entry. */
  function Step(report: seq<UserStatistics>, row: JoinedRow): (r: seq<UserStatistics>)
    ensures |report| <= |r| <= |report| + 1
    ensures forall j | 0 <= j < |report| :: r[j].id == report[j].id && r[j].username == report[j].username
  {
    match IndexOf(report, row.userId)
    case None => report + [UserStatistics(row.userId, row.username, [EntryOf(row)])]
    case Some(j) => report[j := report[j].(statistics := report[j].statistics + [EntryOf(row)])]
  }

  /** The report built from `rows`, records in the order their users first
      appear (a Python dict keeps insertion order). */
  function Group(rows: seq<JoinedRow>): (r: seq<UserStatistics>)
    ensures |r| <= |rows|
    ensures r == [] <==> rows == []
  {
    if rows == [] then [] else Step(Group(rows[..|rows| - 1]), rows[|rows| - 1])
  }

  // ---------------------------------------------------------------------------
  // What the reshaping promises, for any sequence of rows

  function UserIds(rows: seq<JoinedRow>): set<int> {
    set i | 0 <= i < |rows| :: rows[i].userId
  }

  function Ids(report: seq<UserStatistics>): set<int> {
    set j | 0 <= j < |report| :: report[j].id
  }

  /** The entries of user `id`'s rows, in row order. */
  function EntriesFor(rows: seq<JoinedRow>, id: int): seq<Entry> {
    if rows == [] then []
    else EntriesFor(rows[..|rows| - 1], id) + (if rows[|rows| - 1].userId == id then [EntryOf(rows[|rows| - 1])] else [])
  }

  /** The row that opened user `id`'s record: the first row of that user. */
  function OpeningRow(rows: seq<JoinedRow>, id: int): (r: JoinedRow)
    requires id in UserIds(rows)
    ensures r in rows && r.userId == id
    ensures exists i | 0 <= i < |rows| :: rows[i] == r && forall k | 0 <= k < i :: rows[k].userId != id
  {
    var n := |rows| - 1;
    UserIdsSnoc(rows[..n], rows[n]);
    LastSplit(rows);
    if id in UserIds(rows[..n]) then
      var r := OpeningRow(rows[..n], id);
      FirstInPrefix(rows, n, id, r);
      r
    else
      FirstAtEnd(rows, id);
      rows[n]
  }

  /** A first row of `id` within a prefix is a first row of `id` in the whole. */
  lemma FirstInPrefix(rows: seq<JoinedRow>, n: nat, id: int, r: JoinedRow)
    requires n <= |rows|
    requires exists i | 0 <= i < n :: rows[..n][i] == r && forall k | 0 <= k < i :: rows[..n][k].userId != id
    ensures exists i | 0 <= i < |rows| :: rows[i] == r && forall k | 0 <= k < i :: rows[k].userId != id
  {
    var i :| 0 <= i < n && rows[..n][i] == r && forall k | 0 <= k < i :: rows[..n][k].userId != id;
    assert rows[i] == r;
    assert forall k | 0 <= k < i :: rows[k] == rows[..n][k];
  }

  /** When no earlier row is of `id`, the last row is the first one of `id`. */
  lemma FirstAtEnd(rows: seq<JoinedRow>, id: int)
    requires rows != [] && id !in UserIds(rows[..|rows| - 1])
    ensures exists i | 0 <= i < |rows| :: rows[i] == rows[|rows| - 1] && forall k | 0 <= k < i :: rows[k].userId != id
  {
    var n := |rows| - 1;
    forall k | 0 <= k < n ensures rows[k].userId != id {
      assert rows[..n][k] == rows[k];
    }
    assert rows[n] == rows[|rows| - 1] && forall k | 0 <= k < n :: rows[k].userId != id;
  }

  /** The number of entries over all records. */
  function EntryTotal(report: seq<UserStatistics>): nat {
    if report == [] then 0 else EntryTotal(report[..|report| - 1]) + |report[|report| - 1].statistics|
  }

  ghost predicate DistinctIds(report: seq<UserStatistics>) {
    forall j, k | 0 <= j < k < |report| :: report[j].id != report[k].id
  }

  lemma IdsSnoc(report: seq<UserStatistics>, record: UserStatistics)
    ensures Ids(report + [record]) == Ids(report) + {record.id}
  {
    var r := report + [record];
    forall id | id in Ids(report) ensures id in Ids(r) {
      var j :| 0 <= j < |report| && report[j].id == id;
      assert r[j].id == id;
    }
    assert r[|report|].id == record.id;
  }

  lemma IdsUpdate(report: seq<UserStatistics>, j: nat, record: UserStatistics)
    requires j < |report| && record.id == report[j].id
    ensures Ids(report[j := record]) == Ids(report)
  {
    var r := report[j := record];
    forall id | id in Ids(report) ensures id in Ids(r) {
      var k :| 0 <= k < |report| && report[k].id == id;
      assert r[k].id == id;
    }
  }

  lemma UserIdsSnoc(rows: seq<JoinedRow>, row: JoinedRow)
    ensures UserIds(rows + [row]) == UserIds(rows) + {row.userId}
  {
    var s := rows + [row];
    forall id | id in UserIds(rows) ensures id in UserIds(s) {
      var i :| 0 <= i < |rows| && rows[i].userId == id;
      assert s[i].userId == id;
    }
    assert s[|rows|].userId == row.userId;
  }

  lemma GroupSnoc(rows: seq<JoinedRow>, row: JoinedRow)
    ensures Group(rows + [row]) == Step(Group(rows), row)
  {
    assert (rows + [row])[..|rows|] == rows;
  }

  lemma LastSplit(rows: seq<JoinedRow>)
    requires rows != []
    ensures rows == rows[..|rows| - 1] + [rows[|rows| - 1]]
  {
  }

  /** Each user has at most one record, and the records' users are exactly
      the users of the rows. */
  lemma {:induction false} GroupIds(rows: seq<JoinedRow>)
    ensures DistinctIds(Group(rows))
    ensures Ids(Group(rows)) == UserIds(rows)
  {
    if rows != [] {
      var n := |rows| - 1;
      var init, row := rows[..n], rows[n];
      GroupIds(init);
      LastSplit(rows);
      UserIdsSnoc(init, row);
      var g := Group(init);
      match IndexOf(g, row.userId)
      case None =>
        IdsSnoc(g, UserStatistics(row.userId, row.username, [EntryOf(row)]));
      case Some(j) =>
        IdsUpdate(g, j, g[j].(statistics := g[j].statistics + [EntryOf(row)]));
    }
  }

  lemma {:induction false} EntriesForAbsent(rows: seq<JoinedRow>, id: int)
    requires id !in UserIds(rows)
    ensures EntriesFor(rows, id) == []
  {
    if rows != [] {
      var n := |rows| - 1;
      LastSplit(rows);
      UserIdsSnoc(rows[..n], rows[n]);
      EntriesForAbsent(rows[..n], id);
    }
  }

  lemma EntriesForSnoc(rows: seq<JoinedRow>, row: JoinedRow, id: int)
    ensures EntriesFor(rows + [row], id) == EntriesFor(rows, id) + (if row.userId == id then [EntryOf(row)] else [])
  {
    assert (rows + [row])[..|rows|] == rows;
  }

  lemma OpeningRowSnoc(rows: seq<JoinedRow>, row: JoinedRow, id: int)
    requires id in UserIds(rows)
    ensures id in UserIds(rows + [row])
    ensures OpeningRow(rows + [row], id) == OpeningRow(rows, id)
  {
    UserIdsSnoc(rows, row);
    assert (rows + [row])[..|rows|] == rows;
  }

  /** Each record of `report` holds the entries and the username `rows` give its user. */
  ghost predicate RecordsMatch(rows: seq<JoinedRow>, report: seq<UserStatistics>) {
    forall j | 0 <= j < |report| ::
      && report[j].id in UserIds(rows)
      && report[j].statistics == EntriesFor(rows, report[j].id)
      && report[j].username == OpeningRow(rows, report[j].id).username
  }

  lemma StepRecords(rows: seq<JoinedRow>, row: JoinedRow, report: seq<UserStatistics>)
    requires RecordsMatch(rows, report) && DistinctIds(report) && Ids(report) == UserIds(rows)
    ensures RecordsMatch(rows + [row], Step(report, row))
  {
    var rows' := rows + [row];
    var report' := Step(report, row);
    UserIdsSnoc(rows, row);
    forall j | 0 <= j < |report'|
      ensures report'[j].id in UserIds(rows')
      ensures report'[j].statistics == EntriesFor(rows', report'[j].id)
      ensures report'[j].username == OpeningRow(rows', report'[j].id).username
    {
      EntriesForSnoc(rows, row, report'[j].id);
      if j < |report| {
        OpeningRowSnoc(rows, row, report[j].id);
      }
      match IndexOf(report, row.userId)
      case None =>
        if j == |report| {
          assert row.userId !in Ids(report);
          EntriesForAbsent(rows, row.userId);
          UserIdsSnoc(rows, row);
          assert (rows + [row])[..|rows|] == rows;
        }
      case Some(j0) =>
        if j != j0 {
          assert report[j].id != report[j0].id;
        }
    }
  }

  /** Every row contributes exactly one entry, to its own user's record, in
      row order; each record carries the username of the row that opened it. */
  lemma {:induction false} GroupRecords(rows: seq<JoinedRow>)
    ensures RecordsMatch(rows, Group(rows))
  {
    if rows != [] {
      var n := |rows| - 1;
      GroupRecords(rows[..n]);
      GroupIds(rows[..n]);
      LastSplit(rows);
      StepRecords(rows[..n], rows[n], Group(rows[..n]));
    }
  }

  lemma {:induction false} EntryTotalUpdate(report: seq<UserStatistics>, j: nat, r: UserStatistics)
    requires j < |report|
    ensures EntryTotal(report[j := r]) + |report[j].statistics| == EntryTotal(report) + |r.statistics|
  {
    var n := |report| - 1;
    if j < n {
      assert report[j := r][..n] == report[..n][j := r];
      EntryTotalUpdate(report[..n], j, r);
    } else {
      assert report[j := r][..n] == report[..n];
    }
  }

  /** The total number of entries equals the number of rows. */
  lemma {:induction false} GroupTotal(rows: seq<JoinedRow>)
    ensures EntryTotal(Group(rows)) == |rows|
  {
    if rows != [] {
      var n := |rows| - 1;
      var g := Group(rows[..n]);
      GroupTotal(rows[..n]);
      match IndexOf(g, rows[n].userId)
      case None =>
        var g' := g + [UserStatistics(rows[n].userId, rows[n].username, [EntryOf(rows[n])])];
        assert g'[..|g'| - 1] == g;
      case Some(j) =>
        EntryTotalUpdate(g, j, g[j].(statistics := g[j].statistics + [EntryOf(rows[n])]));
    }
  }

  ghost predicate UserSorted(rows: seq<JoinedRow>) {
    forall i, k | 0 <= i < k < |rows| :: rows[i].userId <= rows[k].userId
  }

  ghost predicate IdsAscending(report: seq<UserStatistics>) {
    forall j, k | 0 <= j < k < |report| :: report[j].id < report[k].id
  }

  /** Over rows ordered by user id, the records come out in strictly
      ascending user id. */
  lemma {:induction false} GroupAscending(rows: seq<JoinedRow>)
    requires UserSorted(rows)
    ensures IdsAscending(Group(rows))
  {
    if rows != [] {
      var n := |rows| - 1;
      var init, row := rows[..n], rows[n];
      assert UserSorted(init);
      GroupAscending(init);
      IdsBounded(init, row.userId);
    }
  }

  /** Records built from rows whose user ids are at most `bound` have ids at
      most `bound`. */
  lemma IdsBounded(rows: seq<JoinedRow>, bound: int)
    requires forall i | 0 <= i < |rows| :: rows[i].userId <= bound
    ensures forall j | 0 <= j < |Group(rows)| :: Group(rows)[j].id <= bound
  {
    GroupIds(rows);
    var g := Group(rows);
    forall j | 0 <= j < |g| ensures g[j].id <= bound {
      assert g[j].id in Ids(g);
      var i :| 0 <= i < |rows| && rows[i].userId == g[j].id;
    }
  }

  lemma {:induction false} EntriesForNonEmpty(rows: seq<JoinedRow>, id: int)
    ensures id in UserIds(rows) <==> EntriesFor(rows, id) != []
  {
    if rows != [] {
      var n := |rows| - 1;
      LastSplit(rows);
      UserIdsSnoc(rows[..n], rows[n]);
      EntriesForNonEmpty(rows[..n], id);
    } else {
      assert UserIds(rows) == {};
    }
  }

  // ---------------------------------------------------------------------------
  // The joined query

  /** The joined rows of one user: one per command the user has a statistics
      row for (and that exists), in ascending command id. */
  function RowsOf(t: Tables, u: int): (rows: seq<JoinedRow>)
    requires u in t.users
    ensures |rows| == |CommandsOf(t, u)|
    ensures forall i | 0 <= i < |rows| :: rows[i].userId == u && rows[i].username == t.users[u].username
    ensures forall i | 0 <= i < |rows| :: FromUsedCommand(t, u, rows[i])
    ensures forall c | c in CommandsOf(t, u) :: RowCarrying(t, u, c, rows)
  {
    var cs := Store.SortedInts(CommandsOf(t, u));
    var rows := seq(|cs|, i requires 0 <= i < |cs| => RowFor(t, u, cs[i]));
    RowsCarry(t, u, cs, rows);
    rows
  }

  /** `row` carries the name and count of some command that `u` has used. */
  ghost predicate FromUsedCommand(t: Tables, u: int, row: JoinedRow) {
    exists c | c in CommandsOf(t, u) :: Carries(t, u, c, row)
  }

  /** Some row of `rows` carries the name of command `c` and the count of (u, c). */
  ghost predicate RowCarrying(t: Tables, u: int, c: int, rows: seq<JoinedRow>) {
    exists i | 0 <= i < |rows| :: Carries(t, u, c, rows[i])
  }

  /** The joined row of user `u` and command `c`. */
  function RowFor(t: Tables, u: int, c: int): JoinedRow
    requires u in t.users && c in CommandsOf(t, u)
  {
    JoinedRow(u, t.users[u].username, t.commands[c].name, t.stats[StatKey(u, c)])
  }

  /** Rows built one per command of `cs`, the commands `u` has used, carry
      each of those commands. */
  lemma RowsCarry(t: Tables, u: int, cs: seq<int>, rows: seq<JoinedRow>)
    requires u in t.users
    requires forall c :: c in cs <==> c in CommandsOf(t, u)
    requires |rows| == |cs|
    requires forall i | 0 <= i < |cs| :: cs[i] in CommandsOf(t, u) && rows[i] == RowFor(t, u, cs[i])
    ensures forall i | 0 <= i < |rows| :: rows[i].userId == u && rows[i].username == t.users[u].username
    ensures forall i | 0 <= i < |rows| :: FromUsedCommand(t, u, rows[i])
    ensures forall c | c in CommandsOf(t, u) :: RowCarrying(t, u, c, rows)
  {
    forall i | 0 <= i < |rows| ensures FromUsedCommand(t, u, rows[i]) {
      assert Carries(t, u, cs[i], rows[i]);
    }
    forall c | c in CommandsOf(t, u) ensures RowCarrying(t, u, c, rows) {
      var i :| 0 <= i < |cs| && cs[i] == c;
      assert Carries(t, u, c, rows[i]);
    }
  }

  /** `row` carries the name of command `c` and the count of the pair (u, c). */
  ghost predicate Carries(t: Tables, u: int, c: int, row: JoinedRow) {
    && c in t.commands && StatKey(u, c) in t.stats
    && row.cmd == t.commands[c].name && row.count == t.stats[StatKey(u, c)]
  }

  /** The joined rows of the users `uids`, one user after another. */
  function JoinFrom(t: Tables, uids: seq<int>): (rows: seq<JoinedRow>)
    requires forall i | 0 <= i < |uids| :: uids[i] in t.users
    ensures Owned(t, rows, uids)
  {
    if uids == [] then []
    else
      var head := RowsOf(t, uids[0]);
      var tail := JoinFrom(t, uids[1..]);
      RowsOfOwned(t, uids[0]);
      OwnedConcat(t, head, tail, uids);
      head + tail
  }

  /** The query of `get_all`: an inner join of users, statistics and commands,
      ordered by user id, so a statistics row whose user or command is missing
      yields nothing. Each row belongs to an existing user and carries that
      user's username. */
  function Join(t: Tables): (rows: seq<JoinedRow>)
    ensures UserSorted(rows)
    ensures forall i | 0 <= i < |rows| ::
      rows[i].userId in t.users && rows[i].username == t.users[rows[i].userId].username
  {
    var uids := Store.SortedInts(t.users.Keys);
    JoinFromRows(t, uids);
    JoinFrom(t, uids)
  }

  ghost predicate Increasing(uids: seq<int>) {
    forall i, j | 0 <= i < j < |uids| :: uids[i] < uids[j]
  }

  /** Every row belongs to one of `uids`, an existing user, and carries that
      user's username. */
  ghost predicate Owned(t: Tables, rows: seq<JoinedRow>, uids: seq<int>) {
    forall i | 0 <= i < |rows| ::
      rows[i].userId in uids && rows[i].userId in t.users && rows[i].username == t.users[rows[i].userId].username
  }

  lemma RowsOfOwned(t: Tables, u: int)
    requires u in t.users
    ensures Owned(t, RowsOf(t, u), [u])
  {
  }

  /** Owned rows of the first user followed by owned rows of the rest. */
  lemma OwnedConcat(t: Tables, head: seq<JoinedRow>, tail: seq<JoinedRow>, uids: seq<int>)
    requires uids != []
    requires Owned(t, head, [uids[0]]) && Owned(t, tail, uids[1..])
    ensures Owned(t, head + tail, uids)
  {
    var all := head + tail;
    forall i | 0 <= i < |all|
      ensures all[i].userId in uids && all[i].userId in t.users
      ensures all[i].username == t.users[all[i].userId].username
    {
      if i < |head| {
        assert all[i] == head[i];
      } else {
        var row := tail[i - |head|];
        assert all[i] == row;
        var k :| 0 <= k < |uids[1..]| && uids[1..][k] == row.userId;
        assert uids[k + 1] == row.userId;
      }
    }
  }

  /** Rows of user `u` followed by user-sorted rows of later users are
      user-sorted. */
  lemma SortedConcat(head: seq<JoinedRow>, tail: seq<JoinedRow>, u: int)
    requires forall i | 0 <= i < |head| :: head[i].userId == u
    requires forall i | 0 <= i < |tail| :: u < tail[i].userId
    requires UserSorted(tail)
    ensures UserSorted(head + tail)
  {
    var all := head + tail;
    forall i, k | 0 <= i < k < |all| ensures all[i].userId <= all[k].userId {
      if k < |head| {
      } else if i < |head| {
        assert all[k] == tail[k - |head|];
      } else {
        assert all[i] == tail[i - |head|] && all[k] == tail[k - |head|];
      }
    }
  }

  /** Joining users in ascending id yields rows ordered by user id. */
  lemma {:induction false} JoinFromRows(t: Tables, uids: seq<int>)
    requires forall i | 0 <= i < |uids| :: uids[i] in t.users
    requires Increasing(uids)
    ensures UserSorted(JoinFrom(t, uids))
  {
    if uids != [] {
      JoinFromRows(t, uids[1..]);
      var tail := JoinFrom(t, uids[1..]);
      forall i | 0 <= i < |tail| ensures uids[0] < tail[i].userId {
        var k :| 0 <= k < |uids[1..]| && uids[1..][k] == tail[i].userId;
        assert uids[k + 1] == tail[i].userId;
      }
      SortedConcat(RowsOf(t, uids[0]), tail, uids[0]);
    }
  }

  lemma {:induction false} EntriesForConcat(a: seq<JoinedRow>, b: seq<JoinedRow>, id: int)
    ensures EntriesFor(a + b, id) == EntriesFor(a, id) + EntriesFor(b, id)
  {
    if b != [] {
      var n := |b| - 1;
      assert (a + b)[..|a + b| - 1] == a + b[..n];
      EntriesForConcat(a, b[..n], id);
    } else {
      assert a + b == a;
    }
  }

  lemma {:induction false} EntriesForUniform(rows: seq<JoinedRow>, u: int, id: int)
    requires forall i | 0 <= i < |rows| :: rows[i].userId == u
    ensures EntriesFor(rows, id) == if u == id then Entries(rows) else []
  {
    if rows != [] {
      var n := |rows| - 1;
      EntriesForUniform(rows[..n], u, id);
    }
  }

  lemma {:induction false} JoinFromEntries(t: Tables, uids: seq<int>, id: int)
    requires forall i | 0 <= i < |uids| :: uids[i] in t.users
    requires Increasing(uids)
    ensures EntriesFor(JoinFrom(t, uids), id) == if id in uids then Entries(RowsOf(t, id)) else []
  {
    if uids != [] {
      JoinFromEntries(t, uids[1..], id);
      EntriesForConcat(RowsOf(t, uids[0]), JoinFrom(t, uids[1..]), id);
      EntriesForUniform(RowsOf(t, uids[0]), uids[0], id);
      if id == uids[0] {
        assert id !in uids[1..];
      } else {
        assert id in uids <==> id in uids[1..];
      }
    }
  }

  // ---------------------------------------------------------------------------
  // The report

  /** The users the report lists: existing users with at least one
      statistics row for an existing command. */
  function ActiveUsers(t: Tables): set<int> {
    set k | k in t.stats && k.userId in t.users && k.commandId in t.commands :: k.userId
  }

  lemma ActiveUser(t: Tables, u: int)
    ensures u in ActiveUsers(t) <==> u in t.users && |RowsOf(t, u)| > 0
  {
    if u in t.users && |RowsOf(t, u)| > 0 {
      var c :| c in CommandsOf(t, u);
      assert StatKey(u, c).userId == u;
    }
  }

  /** The joined rows of user `u` are exactly `RowsOf(t, u)`: one per command
      `u` has a statistics row for; a user not in the table has none. */
  lemma JoinEntries(t: Tables, u: int)
    ensures EntriesFor(Join(t), u) == if u in t.users then Entries(RowsOf(t, u)) else []
  {
    JoinFromEntries(t, Store.SortedInts(t.users.Keys), u);
  }

  /** The users of the joined rows are exactly the active users. */
  lemma JoinUsers(t: Tables)
    ensures UserIds(Join(t)) == ActiveUsers(t)
  {
    forall u ensures u in UserIds(Join(t)) <==> u in ActiveUsers(t) {
      EntriesForNonEmpty(Join(t), u);
      JoinEntries(t, u);
      ActiveUser(t, u);
    }
  }

  /** Each record of the report names an existing user, carries that user's
      username and one entry per joined row of that user. */
  lemma ReportRecords(t: Tables)
    ensures forall j | 0 <= j < |Group(Join(t))| ::
      var record := Group(Join(t))[j];
      && record.id in t.users
      && record.username == t.users[record.id].username
      && record.statistics == Entries(RowsOf(t, record.id))
  {
    var rows := Join(t);
    var report := Group(rows);
    GroupRecords(rows);
    forall j | 0 <= j < |report|
      ensures report[j].id in t.users
      ensures report[j].username == t.users[report[j].id].username
      ensures report[j].statistics == Entries(RowsOf(t, report[j].id))
    {
      var opening := OpeningRow(rows, report[j].id);
      var i :| 0 <= i < |rows| && rows[i] == opening;
      JoinEntries(t, report[j].id);
    }
  }

  /** `StatisticsDao.get_all`: records in strictly ascending user id, one per
      active user and none for a user without statistics rows; each record
      carries the user's username and exactly one entry per joined row of
      that user (one per command the user has used), so the entries add up to
      the number of joined rows. */
  lemma ReportSpec(t: Tables)
    ensures var report := Group(Join(t));
      && IdsAscending(report)
      && Ids(report) == ActiveUsers(t)
      && (forall j | 0 <= j < |report| ::
            && report[j].id in t.users
            && report[j].username == t.users[report[j].id].username
            && report[j].statistics == Entries(RowsOf(t, report[j].id)))
      && EntryTotal(report) == |Join(t)|
      && (report == [] <==> ActiveUsers(t) == {})
  {
    var rows := Join(t);
    var report := Group(rows);
    JoinUsers(t);
    GroupAscending(rows);
    GroupIds(rows);
    ReportRecords(t);
    GroupTotal(rows);
    if report == [] {
      assert Ids(report) == {};
    } else {
      assert report[0].id in Ids(report);
    }
  }

  /** In particular, the report is `[]` while there are no statistics rows. */
  lemma ReportEmpty(t: Tables)
    requires t.stats == map[]
    ensures Group(Join(t)) == []
  {
    ReportSpec(t);
    assert ActiveUsers(t) == {} by {
      forall u | u in t.users ensures CommandsOf(t, u) == {} {
        assert forall c :: c !in CommandsOf(t, u);
      }
    }
  }

  /** Entry `e` names a command that user `u` has used, with the pair's count. */
  ghost predicate UsedEntry(t: Tables, u: int, e: Entry) {
    exists c | c in CommandsOf(t, u) :: e == Entry(t.commands[c].name, t.stats[StatKey(u, c)])
  }

  /** The record of an active user: the one whose entries are that user's rows. */
  lemma RecordOf(t: Tables, u: int)
    requires u in t.users && |RowsOf(t, u)| > 0
    ensures exists j | 0 <= j < |Group(Join(t))| ::
      Group(Join(t))[j].id == u && Group(Join(t))[j].statistics == Entries(RowsOf(t, u))
  {
    var report := Group(Join(t));
    ActiveUser(t, u);
    ReportSpec(t);
    assert u in Ids(report);
  }

  /** Entries of rows one of which carries command `c` hold `c`'s entry. */
  lemma EntryOfUsed(t: Tables, u: int, c: int, rows: seq<JoinedRow>, entries: seq<Entry>)
    requires c in t.commands && StatKey(u, c) in t.stats
    requires RowCarrying(t, u, c, rows) && entries == Entries(rows)
    ensures Entry(t.commands[c].name, t.stats[StatKey(u, c)]) in entries
  {
    var i :| 0 <= i < |rows| && Carries(t, u, c, rows[i]);
    assert entries[i] == EntryOf(rows[i]);
  }

  /** Every command `c` that user `u` has used is in `u`'s record of the
      report, with the command's name and the count of the pair (u, c). */
  lemma ReportCount(t: Tables, u: int, c: int)
    requires u in t.users && c in CommandsOf(t, u)
    ensures exists j | 0 <= j < |Group(Join(t))| ::
      && Group(Join(t))[j].id == u
      && Entry(t.commands[c].name, t.stats[StatKey(u, c)]) in Group(Join(t))[j].statistics
  {
    var report := Group(Join(t));
    assert |RowsOf(t, u)| > 0;
    RecordOf(t, u);
    var j :| 0 <= j < |report| && report[j].id == u && report[j].statistics == Entries(RowsOf(t, u));
    EntryOfUsed(t, u, c, RowsOf(t, u), report[j].statistics);
  }

  /** Each entry of the entries of `u`'s rows names a command `u` has used. */
  lemma EntriesUsed(t: Tables, u: int, entries: seq<Entry>)
    requires u in t.users && entries == Entries(RowsOf(t, u))
    ensures forall k | 0 <= k < |entries| :: UsedEntry(t, u, entries[k])
  {
    var rows := RowsOf(t, u);
    forall k | 0 <= k < |entries| ensures UsedEntry(t, u, entries[k]) {
      assert FromUsedCommand(t, u, rows[k]);
      var c :| c in CommandsOf(t, u) && Carries(t, u, c, rows[k]);
      assert entries[k] == Entry(t.commands[c].name, t.stats[StatKey(u, c)]);
    }
  }

  /** Conversely, every entry of every record names a command that the
      record's user has used, with the pair's count. */
  lemma ReportEntriesUsed(t: Tables)
    ensures forall j, k | 0 <= j < |Group(Join(t))| && 0 <= k < |Group(Join(t))[j].statistics| ::
      UsedEntry(t, Group(Join(t))[j].id, Group(Join(t))[j].statistics[k])
  {
    var report := Group(Join(t));
    ReportRecords(t);
    forall j | 0 <= j < |report|
      ensures forall k | 0 <= k < |report[j].statistics| :: UsedEntry(t, report[j].id, report[j].statistics[k])
    {
      EntriesUsed(t, report[j].id, report[j].statistics);
    }
  }

  /** `n` calls of `increment(u, c)` for an existing user and command turn
      database `t` into `after`, whose report lists the command in `u`'s
      record with its earlier count plus `n`; from no row, that is `n`. */
  lemma ReportAfterIncrements(t: Tables, after: Tables, u: int, c: int, n: nat)
    requires u in t.users && c in t.commands && n > 0
    requires after == t.(stats := Store.IncrementTimes(t.stats, u, c, n))
    ensures exists j | 0 <= j < |Group(Join(after))| ::
      && Group(Join(after))[j].id == u
      && Entry(t.commands[c].name, Store.CountOf(t.stats, StatKey(u, c)) + n) in Group(Join(after))[j].statistics
  {
    var e := Entry(t.commands[c].name, Store.CountOf(t.stats, StatKey(u, c)) + n);
    assert c in CommandsOf(after, u) && e == Entry(after.commands[c].name, after.stats[StatKey(u, c)]) by {
      Store.IncrementTimesCount(t.stats, u, c, n);
    }
    assert |RowsOf(after, u)| > 0;
    RecordOf(after, u);
    var report := Group(Join(after));
    var j :| 0 <= j < |report| && report[j].id == u && report[j].statistics == Entries(RowsOf(after, u));
    EntryOfUsed(after, u, c, RowsOf(after, u), report[j].statistics);
  }

  /** Two databases that agree on the users, on the commands and on every
      statistics row whose user and command both exist. */
  ghost predicate AgreeOnLinked(t: Tables, t': Tables) {
    && t.users == t'.users && t.commands == t'.commands
    && (forall k | k in t.stats && k.userId in t.users && k.commandId in t.commands :: k in t'.stats && t'.stats[k] == t.stats[k])
    && (forall k | k in t'.stats && k.userId in t.users && k.commandId in t.commands :: k in t.stats)
  }

  lemma RowsOfLinkedOnly(t: Tables, t': Tables, u: int)
    requires AgreeOnLinked(t, t') && u in t.users
    ensures RowsOf(t, u) == RowsOf(t', u)
  {
    assert CommandsOf(t, u) == CommandsOf(t', u) by {
      forall c ensures c in CommandsOf(t, u) <==> c in CommandsOf(t', u) {
      }
    }
    var cs := Store.SortedInts(CommandsOf(t, u));
    forall i | 0 <= i < |cs| ensures RowFor(t, u, cs[i]) == RowFor(t', u, cs[i]) {
      assert cs[i] in CommandsOf(t, u);
    }
  }

  lemma {:induction false} JoinFromLinkedOnly(t: Tables, t': Tables, uids: seq<int>)
    requires AgreeOnLinked(t, t')
    requires forall i | 0 <= i < |uids| :: uids[i] in t.users
    ensures JoinFrom(t, uids) == JoinFrom(t', uids)
  {
    if uids != [] {
      RowsOfLinkedOnly(t, t', uids[0]);
      JoinFromLinkedOnly(t, t', uids[1..]);
    }
  }

  /** The join reads only statistics rows whose user and command both exist:
      rows that reference a missing user or command never reach the report. */
  lemma JoinLinkedOnly(t: Tables, t': Tables)
    requires AgreeOnLinked(t, t')
    ensures Join(t) == Join(t')
  {
    JoinFromLinkedOnly(t, t', Store.SortedInts(t.users.Keys));
  }

  /** Deleting user `d` gives the same report whether or not the statistics
      rows that reference `d` are deleted with it. */
  lemma DeletedUserReport(t: Tables, d: int)
    ensures Join(t.(users := t.users - {d}))
         == Join(Models.Tables(t.users - {d}, t.commands, map k | k in t.stats && k.userId != d :: t.stats[k]))
  {
    JoinLinkedOnly(t.(users := t.users - {d}),
                   Models.Tables(t.users - {d}, t.commands, map k | k in t.stats && k.userId != d :: t.stats[k]));
  }

  /** Deleting command `d` gives the same report whether or not the statistics
      rows that reference `d` are deleted with it. */
  lemma DeletedCommandReport(t: Tables, d: int)
    ensures Join(t.(commands := t.commands - {d}))
         == Join(Models.Tables(t.users, t.commands - {d}, map k | k in t.stats && k.commandId != d :: t.stats[k]))
  {
    JoinLinkedOnly(t.(commands := t.commands - {d}),
                   Models.Tables(t.users, t.commands - {d}, map k | k in t.stats && k.commandId != d :: t.stats[k]));
  }
}
