/** The repositories of app/dao/db.py over a database connector. The
    connector holds the committed tables; every mutating call works on a
    session (a working copy of the tables) and ends in `SessionScope`, which
    commits the copy or discards it. */
module Db {
  import opened Models
  import Store
  import Report

  /** `DataBaseConnector`: the committed tables. */
  class Connector {
    var users: map<int, User>
    var commands: map<int, Command>
    var stats: map<StatKey, int>

    function Tables(): Tables
      reads this
    {
      Models.Tables(users, commands, stats)
    }

    /** The constraints the schema enforces, and counts of at least 1. */
    ghost predicate Valid()
      reads this
    {
      SchemaHolds(Tables()) && CountsPositive(stats)
    }

    /** Opens the database at `url`. Creating the schema adds only the tables
        that are missing and keeps the rows of those that exist, so the
        committed tables are `existing`, what the database holds when it is
        opened: `Empty` for a new or in-memory database. */
    constructor (url: string, existing: Tables)
      requires url != ""
      requires SchemaHolds(existing) && CountsPositive(existing.stats)
      ensures Tables() == existing && Valid()
    {
      users, commands, stats := existing.users, existing.commands, existing.stats;
    }

    /** `session_scope`: on normal completion the session's work is committed;
        on an exception it is rolled back and the exception re-raised, so a
        failed call leaves the committed tables as they were. */
    method SessionScope(work: Store.Result<Tables>) returns (outcome: Store.Outcome)
      modifies this
      ensures Tables() == Store.Scope(old(Tables()), work)
      ensures outcome == Store.OutcomeOf(work)
    {
      match work
      case Ok(session) =>
        // the work completed: commit it
        users, commands, stats := session.users, session.commands, session.stats;
        outcome := Store.Committed;
      case Err(e) =>
        // the work raised: roll back and re-raise
        outcome := Store.Raised(e);
    }
  }

  /** `UserDao`: the repository of `users`. */
  class UserDao {
    const conn: Connector

    constructor (conn: Connector)
      ensures this.conn == conn
    {
      this.conn := conn;
    }

    /** `get_all`: a snapshot of every row, in key order. */
    method GetAll() returns (rows: seq<User>)
      ensures rows == Store.Rows(conn.users)
    {
      rows := Store.Rows(conn.users);
    }

    /** `get_by_id`: the row stored under `id`, or None. */
    method GetById(id: int) returns (row: Option<User>)
      ensures row == Store.GetById(conn.users, id)
    {
      row := Store.GetById(conn.users, id);
    }

    /** `add`: inserts a row with the four given fields. */
    method Add(id: int, username: Option<string>, firstName: Option<string>, lastName: Option<string>)
      returns (outcome: Store.Outcome)
      requires conn.Valid()
      modifies conn
      ensures conn.Valid()
      ensures conn.users == Store.Scope(old(conn.users), Store.AddUser(old(conn.users), id, username, firstName, lastName))
      ensures conn.commands == old(conn.commands) && conn.stats == old(conn.stats)
      ensures outcome == Store.OutcomeOf(Store.AddUser(old(conn.users), id, username, firstName, lastName))
    {
      var session := conn.Tables();
      if id in session.users {
        // the INSERT hits the primary key of `users` when the session flushes
        outcome := conn.SessionScope(Store.Err(Store.IntegrityError));
      } else {
        session := session.(users := session.users[id := User(id, username, firstName, lastName)]);
        outcome := conn.SessionScope(Store.Ok(session));
      }
    }

    /** `update`: patches the non-None fields of an existing row; a missing
        row is created by `add`, in a session of its own. */
    method Update(id: int, username: Option<string>, firstName: Option<string>, lastName: Option<string>)
      returns (outcome: Store.Outcome)
      requires conn.Valid()
      modifies conn
      ensures conn.Valid()
      ensures conn.users == Store.Scope(old(conn.users), Store.UpdateUser(old(conn.users), id, username, firstName, lastName))
      ensures conn.commands == old(conn.commands) && conn.stats == old(conn.stats)
      ensures outcome == Store.Committed
    {
      var session := conn.Tables();
      if id in session.users {
        var user := session.users[id];
        user := user.(username := if username.Some? then username else user.username);
        user := user.(firstName := if firstName.Some? then firstName else user.firstName);
        user := user.(lastName := if lastName.Some? then lastName else user.lastName);
        session := session.(users := session.users[id := user]);
        outcome := conn.SessionScope(Store.Ok(session));
      } else {
        outcome := Add(id, username, firstName, lastName);
      }
    }

    /** `delete`: removes the row with this id; a missing row raises. */
    method Delete(id: int) returns (outcome: Store.Outcome)
      requires conn.Valid()
      modifies conn
      ensures conn.Valid()
      ensures conn.users == Store.Scope(old(conn.users), Store.DeleteRow(old(conn.users), id))
      ensures conn.commands == old(conn.commands) && conn.stats == old(conn.stats)
      ensures outcome == Store.OutcomeOf(Store.DeleteRow(old(conn.users), id))
    {
      var session := conn.Tables();
      if id in session.users {
        session := session.(users := session.users - {id});
        outcome := conn.SessionScope(Store.Ok(session));
      } else {
        // the lookup found no row, and deleting nothing raises
        outcome := conn.SessionScope(Store.Err(Store.UnmappedInstance));
      }
    }
  }

  /** `CommandDao`: the repository of `commands`. */
  class CommandDao {
    const conn: Connector

    constructor (conn: Connector)
      ensures this.conn == conn
    {
      this.conn := conn;
    }

    /** `get_all`: a snapshot of every row, in key order. */
    method GetAll() returns (rows: seq<Command>)
      ensures rows == Store.Rows(conn.commands)
    {
      rows := Store.Rows(conn.commands);
    }

    /** `get_by_id`: the row stored under `id`, or None. */
    method GetById(id: int) returns (row: Option<Command>)
      ensures row == Store.GetById(conn.commands, id)
    {
      row := Store.GetById(conn.commands, id);
    }

    /** `get_by_name`: the command with this name, or None. */
    method GetByName(name: string) returns (row: Option<Command>)
      ensures row == Store.GetByName(conn.commands, name)
    {
      row := Store.GetByName(conn.commands, name);
    }

    /** `add`: inserts a command; the schema rejects a NULL name, a duplicate
        id and a duplicate name. */
    method Add(id: int, name: Option<string>) returns (outcome: Store.Outcome)
      requires conn.Valid()
      modifies conn
      ensures conn.Valid()
      ensures conn.commands == Store.Scope(old(conn.commands), Store.AddCommand(old(conn.commands), id, name))
      ensures conn.users == old(conn.users) && conn.stats == old(conn.stats)
      ensures outcome == Store.OutcomeOf(Store.AddCommand(old(conn.commands), id, name))
    {
      var session := conn.Tables();
      if name.None? || id in session.commands || exists k | k in session.commands :: session.commands[k].name == name.value {
        // NOT NULL, the primary key or UNIQUE(name) rejects the INSERT at flush
        outcome := conn.SessionScope(Store.Err(Store.IntegrityError));
      } else {
        session := session.(commands := session.commands[id := Command(id, name.value)]);
        outcome := conn.SessionScope(Store.Ok(session));
      }
    }

    /** `delete`: removes the command with this id; a missing row raises. */
    method Delete(id: int) returns (outcome: Store.Outcome)
      requires conn.Valid()
      modifies conn
      ensures conn.Valid()
      ensures conn.commands == Store.Scope(old(conn.commands), Store.DeleteRow(old(conn.commands), id))
      ensures conn.users == old(conn.users) && conn.stats == old(conn.stats)
      ensures outcome == Store.OutcomeOf(Store.DeleteRow(old(conn.commands), id))
    {
      var session := conn.Tables();
      if id in session.commands {
        session := session.(commands := session.commands - {id});
        outcome := conn.SessionScope(Store.Ok(session));
      } else {
        // the lookup found no row, and deleting nothing raises
        outcome := conn.SessionScope(Store.Err(Store.UnmappedInstance));
      }
    }
  }

  /** `StatisticsDao`: the repository of `statistics`. */
  class StatisticsDao {
    const conn: Connector

    constructor (conn: Connector)
      ensures this.conn == conn
    {
      this.conn := conn;
    }

    /** `increment`: within one session, looks the pair up and either adds one
        to its count or inserts it with count 1. Only `statistics` changes. */
    method Increment(userId: int, commandId: int) returns (outcome: Store.Outcome)
      requires conn.Valid()
      modifies conn
      ensures conn.Valid()
      ensures conn.stats == Store.Increment(old(conn.stats), userId, commandId)
      ensures conn.users == old(conn.users) && conn.commands == old(conn.commands)
      ensures outcome == Store.Committed
    {
      var session := conn.Tables();
      var key := StatKey(userId, commandId);
      if key in session.stats {
        // the pair has a row: one more use
        session := session.(stats := session.stats[key := session.stats[key] + 1]);
      } else {
        // the pair has no row yet: insert it with count 1
        session := session.(stats := session.stats[key := 1]);
      }
      outcome := conn.SessionScope(Store.Ok(session));
    }

    /** `get_all`: runs the joined query and reshapes its rows. */
    method GetAll() returns (report: seq<Report.UserStatistics>)
      ensures report == Report.Group(Report.Join(conn.Tables()))
    {
      var rows := Report.Join(conn.Tables());
      report := Reshape(rows);
    }
  }

  /** The loop of `get_all`: folds the rows into a dict keyed by user id, where
      a user's first row opens a record and later rows append an entry to it;
      the dict's values, in insertion order, are the report. */
  method Reshape(rows: seq<Report.JoinedRow>) returns (report: seq<Report.UserStatistics>)
    ensures report == Report.Group(rows)
  {
    var users: map<int, Report.UserStatistics> := map[];
    var order: seq<int> := [];
    for i := 0 to |rows|
      invariant DictHolds(users, order, Report.Group(rows[..i]))
    {
      var stat := rows[i];
      var entry := Report.Entry(stat.cmd, stat.count);
      ghost var done := Report.Group(rows[..i]);
      Report.GroupIds(rows[..i]);
      Report.GroupSnoc(rows[..i], stat);
      assert rows[..i + 1] == rows[..i] + [stat];
      if stat.userId !in users {
        StepOpens(users, order, done, stat);
        users := users[stat.userId := Report.UserStatistics(stat.userId, stat.username, [entry])];
        order := order + [stat.userId];
      } else {
        StepAppends(users, order, done, stat);
        users := users[stat.userId := users[stat.userId].(statistics := users[stat.userId].statistics + [entry])];
      }
    }
    assert rows[..|rows|] == rows;
    report := seq(|order|, j requires 0 <= j < |order| => users[order[j]]);
    DictValues(users, order, Report.Group(rows), report);
  }

  /** The Python dict of `get_all` (a map plus its keys in insertion order)
      holds exactly the records of `report`, in the same order. */
  ghost predicate DictHolds(users: map<int, Report.UserStatistics>, order: seq<int>, report: seq<Report.UserStatistics>) {
    && |order| == |report|
    && (forall j | 0 <= j < |order| :: order[j] in users && order[j] == report[j].id && users[order[j]] == report[j])
    && (forall id :: id in users <==> id in order)
  }

  /** Listing the dict's values gives the records in insertion order. */
  lemma DictValues(users: map<int, Report.UserStatistics>, order: seq<int>,
                   report: seq<Report.UserStatistics>, values: seq<Report.UserStatistics>)
    requires DictHolds(users, order, report)
    requires |values| == |order| && forall j | 0 <= j < |order| :: values[j] == users[order[j]]
    ensures values == report
  {
  }

  /** A user's first row opens a record: on the dict this is one `Report.Step`. */
  lemma StepOpens(users: map<int, Report.UserStatistics>, order: seq<int>,
                  report: seq<Report.UserStatistics>, row: Report.JoinedRow)
    requires DictHolds(users, order, report) && row.userId !in users
    ensures DictHolds(users[row.userId := Report.UserStatistics(row.userId, row.username, [Report.EntryOf(row)])],
                      order + [row.userId], Report.Step(report, row))
  {
    assert Report.IndexOf(report, row.userId) == None;
  }

  /** A later row of a user appends to that user's record: on the dict this is
      one `Report.Step`. */
  lemma StepAppends(users: map<int, Report.UserStatistics>, order: seq<int>,
                    report: seq<Report.UserStatistics>, row: Report.JoinedRow)
    requires DictHolds(users, order, report) && Report.DistinctIds(report) && row.userId in users
    ensures DictHolds(users[row.userId := users[row.userId].(statistics := users[row.userId].statistics + [Report.EntryOf(row)])],
                      order, Report.Step(report, row))
  {
    var j :| 0 <= j < |order| && order[j] == row.userId;
    assert Report.IndexOf(report, row.userId) == Some(j);
  }
}
