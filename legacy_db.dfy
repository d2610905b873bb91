/** The older, standalone repository of dao/db.py: a connector over the
    `users` table alone and a `UserDao` with the same add, patch-or-add update
    and delete as app/dao/db.py. Its reads (`get_all`, `get_by_id`) are the
    projections `Store.Rows` and `Store.GetById` of the committed table. */
module LegacyDb {
  import opened Models
  import Store

  /** `DataBaseConnector` of dao/db.py: the committed `users` table. */
  class Connector {
    var users: map<int, User>

    ghost predicate Valid()
      reads this
    {
      UsersKeyed(users)
    }

    /** Opens the database at `url`. Creating the schema keeps the rows of a
        `users` table that exists, so the committed table is `existing`:
        empty for a new or in-memory database. */
    constructor (url: string, existing: map<int, User>)
      requires UsersKeyed(existing)
      ensures users == existing && Valid()
    {
      users := existing;
    }

    /** `session_scope`: commits the session's work, or (the bare `except`
        catches everything) rolls it back and re-raises. */
    method SessionScope(work: Store.Result<map<int, User>>) returns (outcome: Store.Outcome)
      modifies this
      ensures users == Store.Scope(old(users), work)
      ensures outcome == Store.OutcomeOf(work)
    {
      match work
      case Ok(session) =>
        users := session;
        outcome := Store.Committed;
      case Err(e) =>
        outcome := Store.Raised(e);
    }
  }

  /** `UserDao` of dao/db.py. */
  class UserDao {
    const conn: Connector

    constructor (conn: Connector)
      ensures this.conn == conn
    {
      this.conn := conn;
    }

    /** `get_all`: a snapshot of every row, in key order. */
    method GetAll() returns (rows: seq<User>)
      ensures rows == Store.Rows(conn.users)
    {
      rows := Store.Rows(conn.users);
    }

    /** `get_by_id`: the row stored under `id`, or None. */
    method GetById(id: int) returns (row: Option<User>)
      ensures row == Store.GetById(conn.users, id)
    {
      row := Store.GetById(conn.users, id);
    }

    /** `add`: inserts a row with the four given fields. */
    method Add(id: int, username: Option<string>, firstName: Option<string>, lastName: Option<string>)
      returns (outcome: Store.Outcome)
      requires conn.Valid()
      modifies conn
      ensures conn.Valid()
      ensures conn.users == Store.Scope(old(conn.users), Store.AddUser(old(conn.users), id, username, firstName, lastName))
      ensures outcome == Store.OutcomeOf(Store.AddUser(old(conn.users), id, username, firstName, lastName))
    {
      var session := conn.users;
      if id in session {
        outcome := conn.SessionScope(Store.Err(Store.IntegrityError));
      } else {
        session := session[id := User(id, username, firstName, lastName)];
        outcome := conn.SessionScope(Store.Ok(session));
      }
    }

    /** `update`: patches the non-None fields of an existing row; a missing
        row is created by `add`. */
    method Update(id: int, username: Option<string>, firstName: Option<string>, lastName: Option<string>)
      returns (outcome: Store.Outcome)
      requires conn.Valid()
      modifies conn
      ensures conn.Valid()
      ensures conn.users == Store.Scope(old(conn.users), Store.UpdateUser(old(conn.users), id, username, firstName, lastName))
      ensures outcome == Store.Committed
    {
      var session := conn.users;
      if id in session {
        var user := session[id];
        user := user.(username := if username.Some? then username else user.username);
        user := user.(firstName := if firstName.Some? then firstName else user.firstName);
        user := user.(lastName := if lastName.Some? then lastName else user.lastName);
        outcome := conn.SessionScope(Store.Ok(session[id := user]));
      } else {
        outcome := Add(id, username, firstName, lastName);
      }
    }

    /** `delete`: removes the row with this id; a missing row raises. */
    method Delete(id: int) returns (outcome: Store.Outcome)
      requires conn.Valid()
      modifies conn
      ensures conn.Valid()
      ensures conn.users == Store.Scope(old(conn.users), Store.DeleteRow(old(conn.users), id))
      ensures outcome == Store.OutcomeOf(Store.DeleteRow(old(conn.users), id))
    {
      var session := conn.users;
      if id in session {
        outcome := conn.SessionScope(Store.Ok(session - {id}));
      } else {
        outcome := conn.SessionScope(Store.Err(Store.UnmappedInstance));
      }
    }
  }
}
