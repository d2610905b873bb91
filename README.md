# Persistence layer of the Telegram bot, in Dafny

The bot keeps three tables:

- `users` holds Telegram users, keyed by id, with an optional username, first name and last name.
- `commands` holds the bot's commands, keyed by id. Each has a unique, non-null name.
- `statistics` holds how often each user has used each command. It is keyed by the pair (user id, command id) and stores a `count`.

Repository objects ("DAOs") sit over these tables:

- `UserDao` adds, patches-or-adds, lists, looks up and deletes users.
- `CommandDao` adds, looks up by id or name, lists and deletes commands.
- `StatisticsDao` increments a count, and builds the report: one record per user, with a list of `{cmd, count}` entries.

Every call runs inside `session_scope`. That is one transaction: it commits if the body finishes, and otherwise it rolls back and re-raises. An older standalone copy, `dao/db.py`, has only a `UserDao` over `users`.

The model has six modules:

- `Models` (models.dfy) is the schema. The three tables are maps from their primary keys, so each key holds at most one row by construction. It also states the remaining constraints as predicates: rows stored under their own id, unique command names, foreign keys, and positive counts. The two sides of the many-to-many relation are `CommandsOf` and `UsagesOf`.
- `Store` (store.dfy) gives what each repository call does to a table, as pure functions:
  - the table after the call, or an error (`Result`);
  - the transaction as `Scope`: the new table on success, the old one on error;
  - the caller's view as `OutcomeOf`: committed, or the error raised.
  - Reads (`get_all`, `get_by_id`, `get_by_name`) are projections of the committed table. A row value stands for the dict `_asdict` builds, since that dict holds every column of the row.
- `Report` (report.dfy) gives the report query:
  - `Join` is the inner join of users × statistics × commands, ordered by user id.
  - `Group` is the loop of `get_all` read as a left fold (`Step`).
  - Its lemmas prove the report's shape for any row sequence, and the report's contents for any database.
- `Db` (db.dfy) is app/dao/db.py in its own form:
  - a `Connector` class whose fields are the committed tables, and whose `SessionScope` method commits or discards a session's work;
  - `UserDao`, `CommandDao` and `StatisticsDao` classes, whose methods change the connector's tables. Each method's `ensures` ties the new tables to the `Store` function for that call, and keeps the schema invariant `Valid()`;
  - the loop of `StatisticsDao.get_all`, as the method `Reshape` over a dict (a map plus its insertion order). It is proved equal to `Report.Group`.
- `LegacyDb` (legacy_db.dfy) is dao/db.py: its own connector over `users` and its own `UserDao`, specified by the same `Store` functions.
- `Scenarios` (scenarios.dfy) drives the repository classes through the sequences in app/dao/tests/test_dao.py and the demonstration at the foot of dao/db.py. It also covers a two-user report, a duplicate insert that is rolled back, and a delete of a missing row. Each sequence has the results its assertions expect.

`delete` of a missing id raises: the lookup returns `None`, deleting `None` raises, and `session_scope` rolls back and re-raises. `DeleteRow` therefore returns `UnmappedInstance` and leaves the table unchanged.

## Model

| member | source | states |
|---|---|---|
| Models.CommandsOf | app/dao/models.py:23-27 | `User.commands`: a command is in the set iff it exists and a `statistics` row links it to the user |
| Models.UsagesOf | app/dao/models.py:40-44 | `Command.usages`: a user is in the set iff the user exists and a `statistics` row links them to the command |
| Models.ManyToMany | app/dao/models.py:23-44 | `c ∈ commands(u)` iff `u ∈ usages(c)` iff the row `(u, c)` exists, for an existing user and command |
| Store.Scope | app/dao/db.py:23-34 | a session's work is committed whole on success; on an exception the state is exactly the state before |
| Store.OutcomeOf | app/dao/db.py:23-34 | the call completes iff its work succeeded; otherwise it re-raises that same error |
| Store.MinOf | app/dao/db.py:46-49 | the least key of a non-empty key set |
| Store.SortedInts | app/dao/db.py:46-49 | the keys in strictly ascending order, each key exactly once |
| Store.Rows | app/dao/db.py:46-49 | `get_all` has one snapshot per row, every row appears, only stored rows appear, and it is `[]` iff the table is empty |
| Store.RowAt | app/dao/db.py:46-49 | position i of `get_all` holds the row stored under the i-th smallest key |
| Store.UserRowsAscending | app/dao/db.py:46-49 | `UserDao.get_all` lists the users by strictly ascending id, so each appears once |
| Store.CommandRowsAscending | app/dao/db.py:46-49 | `CommandDao.get_all` lists the commands by strictly ascending id, so each appears once |
| Store.GetById | app/dao/db.py:51-56 | `get_by_id` is None iff no row has that id; otherwise it is that row |
| Store.DeleteRow | app/dao/db.py:58-63 | `delete` succeeds iff the id exists. It then removes exactly that key and leaves all other rows as they were. A missing id raises `UnmappedInstance` |
| Store.AddUser | app/dao/db.py:75-84 | `add` succeeds iff the id is new, and an existing id is an integrity error. The table stays keyed by id |
| Store.Patch | app/dao/db.py:96-98 | a non-None argument replaces the field; None keeps the old value |
| Store.UpdateUser | app/dao/db.py:86-100 | `update` never fails. It leaves the key set plus the id, other rows unchanged and the id kept. Each field is set when its argument is non-None, or when the row is new; otherwise the old value stays |
| Store.AddThenRead | dao/db.py:40-49 | after a successful `add`, `get_by_id` returns exactly the four fields, every other id reads as before, and `get_all` has grown by one |
| Store.UpdateMissingIsAdd | app/dao/db.py:99-100 | `update` on a missing id has exactly the effect of `add` with the same arguments |
| Store.AddCommand | app/dao/db.py:106-113 | `CommandDao.add` succeeds iff the name is non-null, the id is new and the name is unused. It then adds exactly `Command(id, name)`, keeps the other rows, and keeps ids keyed and names unique |
| Store.FindName | app/dao/db.py:115-125 | the first id among those searched whose command has the name (no earlier id has it), or None iff none of them has it |
| Store.GetByName | app/dao/db.py:115-125 | `get_by_name` is None iff no command has the name; otherwise it is a stored row with that name |
| Store.GetByNameUnique | app/dao/models.py:38 | because names are unique, `get_by_name` of a stored command's name returns that very command |
| Store.AddCommandThenRead | app/dao/db.py:106-125 | after a successful `CommandDao.add`, `get_by_name` and `get_by_id` both return the new command |
| Store.Increment | app/dao/db.py:160-169 | `increment` adds the key if absent and raises the pair's count by exactly 1 (absent counts as 0, so a new row has 1). Every other row is unchanged and counts stay at least 1 |
| Store.IncrementTimes | app/dao/db.py:160-169 | n calls to `increment(u, c)` create the pair's row when n > 0 and no other row, leave every other row as it was, and keep every count at least 1 |
| Store.IncrementTimesCount | app/dao/db.py:160-169 | n calls to `increment(u, c)` raise the pair's count by exactly n, so from no row they leave the count n |
| Store.IncrementKeepsForeignKeys | app/dao/models.py:9-10 | incrementing a pair whose user and command exist keeps every `statistics` row referencing existing rows |
| Report.EntryOf | app/dao/db.py:152-156 | the `{cmd, count}` entry of a row holds that row's command name and count |
| Report.IndexOf | app/dao/db.py:147 | the position of the user's record in the report built so far, or None iff no record has that id |
| Report.Step | app/dao/db.py:146-156 | one iteration adds at most one record, and only for a user not seen yet. Every existing record keeps its position, id and username |
| Report.Group | app/dao/db.py:145-158 | the loop yields at most one record per row, and no record iff there are no rows |
| Report.UserIdsSnoc | app/dao/db.py:146-147 | the users of the rows plus one more row are the users so far plus that row's user |
| Report.GroupSnoc | app/dao/db.py:146-156 | processing one more row is exactly one more iteration of the loop |
| Report.OpeningRow | app/dao/db.py:147-153 | the row that opened a user's record: a row of that user, with no row of that user before it |
| Report.EntriesForAbsent | app/dao/db.py:145-156 | a user with no rows has no entries |
| Report.EntriesForSnoc | app/dao/db.py:156 | one more row adds its entry to its own user's list and to no other |
| Report.OpeningRowSnoc | app/dao/db.py:147-153 | later rows do not change which row opened a user's record |
| Report.GroupIds | app/dao/db.py:145-158 | the report has at most one record per user id, and its ids are exactly the users of the rows |
| Report.StepRecords | app/dao/db.py:146-156 | one iteration keeps every record equal to its user's first row's username and the entries of that user's rows |
| Report.GroupRecords | app/dao/db.py:145-158 | each record's username comes from its user's first row. Its entries are exactly that user's rows, one `{cmd, count}` each, in row order |
| Report.EntryTotalUpdate | app/dao/db.py:156 | replacing one record changes the entry total by the change in that record's entries |
| Report.GroupTotal | app/dao/db.py:145-158 | the entries across all records add up to the number of joined rows |
| Report.IdsBounded | app/dao/db.py:145-158 | rows whose user ids are at most a bound give records whose ids are at most that bound |
| Report.GroupAscending | app/dao/db.py:142-158 | when the rows are ordered by user id, the records are in strictly ascending id order |
| Report.EntriesForNonEmpty | app/dao/db.py:145-156 | a user has a non-empty entry list iff one of the rows is theirs |
| Report.RowsOf | app/dao/db.py:136-141 | the joined rows of one user: one per command the user has used. Each carries that user's id and username, and the name and count of a command the user has used; every such command has a row |
| Report.JoinFrom | app/dao/db.py:136-141 | every row joined for a list of users belongs to one of those users, who exists, and carries that user's username |
| Report.OwnedConcat | app/dao/db.py:136-141 | one user's own rows followed by rows owned by the remaining users are owned by the whole list |
| Report.SortedConcat | app/dao/db.py:142 | one user's rows followed by user-sorted rows of higher ids stay ordered by user id |
| Report.JoinFromRows | app/dao/db.py:136-143 | joining users in ascending id gives rows ordered by user id |
| Report.EntriesForConcat | app/dao/db.py:145-156 | a user's entries over two row blocks are the entries over the first, then over the second |
| Report.EntriesForUniform | app/dao/db.py:145-156 | over rows of one user, that user's entries are all the rows' entries, and every other user has none |
| Report.JoinFromEntries | app/dao/db.py:136-143 | in the join, a user's entries are exactly the entries of their own rows |
| Report.ActiveUser | app/dao/db.py:140-141 | a user appears in the join iff the user exists and has a `statistics` row for an existing command |
| Report.Join | app/dao/db.py:136-143 | the query's rows are ordered by user id, and each belongs to an existing user with that user's username |
| Report.JoinEntries | app/dao/db.py:136-143 | an existing user's entries in the join are the entries of their rows, and a missing user has none |
| Report.JoinUsers | app/dao/db.py:140-141 | the users in the join are exactly those with a `statistics` row whose user and command both exist |
| Report.ReportRecords | app/dao/db.py:134-158 | every record of the report is an existing user with that user's username and exactly that user's entries |
| Report.ReportSpec | app/dao/db.py:134-158 | the report has strictly ascending ids and holds exactly the users with usage rows. Each record has its user's username and entries. The entries total the joined rows, and the report is `[]` iff no user has a usage row |
| Report.ReportEmpty | app/dao/tests/test_dao.py:84 | with no `statistics` rows the report is `[]` |
| Report.RecordOf | app/dao/db.py:134-158 | a user with joined rows has a record whose entries are exactly those rows' entries |
| Report.ReportCount | app/dao/db.py:134-158 | for every command a user has used, the user's record holds an entry with that command's name and the pair's count |
| Report.ReportEntriesUsed | app/dao/db.py:134-158 | every entry of every record names a command its user has used, with the pair's count |
| Report.ReportAfterIncrements | app/dao/db.py:134-169 | after n calls to `increment(u, c)` for an existing user and command, `u`'s record holds the command's name with the earlier count plus n (so n when there was no row) |
| Report.JoinLinkedOnly | app/dao/db.py:136-141 | databases that agree on users, commands and the `statistics` rows whose user and command both exist give the same joined rows |
| Report.DeletedUserReport | app/dao/db.py:136-141 | after a user is deleted, the query gives the same rows whether or not that user's `statistics` rows are deleted too |
| Report.DeletedCommandReport | app/dao/db.py:136-141 | after a command is deleted, the query gives the same rows whether or not that command's `statistics` rows are deleted too |
| Db.Connector.constructor | app/dao/db.py:10-21 | a non-empty URL opens the database with the rows it already holds (none for a new one), and the schema holds |
| Db.Connector.SessionScope | app/dao/db.py:23-34 | commits the session's tables on success and leaves the committed tables as they were on an exception, which is re-raised |
| Db.UserDao.constructor | app/dao/db.py:38-40 | the repository keeps its connector |
| Db.UserDao.GetAll | app/dao/db.py:46-49 | returns `Store.Rows` of the committed `users` |
| Db.UserDao.GetById | app/dao/db.py:51-56 | returns `Store.GetById` on the committed `users` |
| Db.UserDao.Add | app/dao/db.py:75-84 | `users` becomes `Scope` of `AddUser`, the other tables are untouched, the schema holds, and the outcome is that of `AddUser` |
| Db.UserDao.Update | app/dao/db.py:86-100 | patches in place, or calls `Add` for a missing row. `users` becomes `UpdateUser`'s table, the other tables are untouched, and the call commits |
| Db.UserDao.Delete | app/dao/db.py:58-63 | `users` becomes `Scope` of `DeleteRow`, and a missing id raises with nothing changed. `commands` and `statistics` are kept as they were |
| Db.CommandDao.constructor | app/dao/db.py:38-40 | the repository keeps its connector |
| Db.CommandDao.GetAll | app/dao/db.py:46-49 | returns `Store.Rows` of the committed `commands` |
| Db.CommandDao.GetById | app/dao/db.py:51-56 | returns `Store.GetById` on the committed `commands` |
| Db.CommandDao.GetByName | app/dao/db.py:115-125 | returns `Store.GetByName` on the committed `commands` |
| Db.CommandDao.Add | app/dao/db.py:106-113 | `commands` becomes `Scope` of `AddCommand`, and a NULL, duplicate id or duplicate name raises with nothing changed |
| Db.CommandDao.Delete | app/dao/db.py:58-63 | `commands` becomes `Scope` of `DeleteRow`, and a missing id raises with nothing changed. `users` and `statistics` are kept as they were |
| Db.StatisticsDao.constructor | app/dao/db.py:38-40 | the repository keeps its connector |
| Db.StatisticsDao.Increment | app/dao/db.py:160-169 | `statistics` becomes `Store.Increment` of the old table, users and commands are untouched, counts stay positive, and the call commits |
| Db.StatisticsDao.GetAll | app/dao/db.py:134-158 | the result is `Group(Join(tables))`, whose properties `Report.ReportSpec` states |
| Db.Reshape | app/dao/db.py:145-158 | the dict-and-append loop over the rows returns exactly `Report.Group(rows)` |
| Db.StepOpens | app/dao/db.py:147-154 | a user's first row adds a record holding that row's entry, at the end of the insertion order, exactly as one `Report.Step` |
| Db.StepAppends | app/dao/db.py:155-156 | a later row of a user appends its entry to that user's record and keeps the order, exactly as one `Report.Step` |
| Db.DictValues | app/dao/db.py:158 | `list(users.values())`, in insertion order, is the report the dict holds |
| LegacyDb.Connector.constructor | dao/db.py:10-14 | opens the database with the `users` rows it already holds (none for a new one) |
| LegacyDb.Connector.SessionScope | dao/db.py:16-27 | commits on success; on any exception (bare `except`) leaves `users` as it was and re-raises |
| LegacyDb.UserDao.constructor | dao/db.py:31-33 | the repository keeps its connector |
| LegacyDb.UserDao.GetAll | dao/db.py:35-38 | returns `Store.Rows` of the committed `users` |
| LegacyDb.UserDao.GetById | dao/db.py:40-44 | returns the row, or falls through to None |
| LegacyDb.UserDao.Add | dao/db.py:46-49 | `users` becomes `Scope` of `AddUser`, with that call's outcome |
| LegacyDb.UserDao.Update | dao/db.py:51-59 | patches the non-None fields in place, or calls `Add` for a missing row, as `UpdateUser` states. The call commits |
| LegacyDb.UserDao.Delete | dao/db.py:61-64 | `users` becomes `Scope` of `DeleteRow`, and a missing id raises with `users` unchanged |
| Scenarios.SingleRow | app/dao/tests/test_dao.py:26-36 | a one-user table lists exactly that user |
| Scenarios.UserGetAll | app/dao/tests/test_dao.py:20-36 | `get_all` is `[]` on a fresh database, then after one `add` it is exactly the user `(1, hello, first, second)` |
| Scenarios.UserUpdate | app/dao/tests/test_dao.py:38-53 | after `update(id=1, username='updated')` the row has the new username and keeps `first` and `second` |
| Scenarios.CommandGetAll | app/dao/tests/test_dao.py:59-68 | `get_all` is `[]`, then after adding `help` and `say` it lists exactly two commands, both of them |
| Scenarios.JoinFromSingle | app/dao/db.py:136-143 | joining one user yields exactly that user's rows |
| Scenarios.JoinFromPair | app/dao/db.py:136-143 | joining two users yields the first user's rows, then the second's |
| Scenarios.SortedPair | app/dao/db.py:142 | the user ids 1 and 2 are taken in the order 1, 2 |
| Scenarios.OneUsageJoin | app/dao/db.py:136-143 | with one user, one command and one usage row, the join is that single row |
| Scenarios.SingleUsageReport | app/dao/db.py:145-158 | such a database reports exactly one record: the user's id and username, with one entry of the command's name and the row's count |
| Scenarios.StatisticsSetUp | app/dao/tests/test_dao.py:74-80 | the set-up leaves user 1 (`hello`) and command `help` stored, no statistics, and the three repositories on one connector |
| Scenarios.SingleUsageTables | app/dao/tests/test_dao.py:86-105 | three increments of (1, 1) after the set-up report `[{1, hello, [{help, 3}]}]` |
| Scenarios.StatisticsGetAll | app/dao/tests/test_dao.py:82-105 | the report is `[]` after set-up, then after three increments it is `[{1, hello, [{help, 3}]}]` |
| Scenarios.TwoUserCommands | app/dao/models.py:23-27 | in the two-user database user 1 has used command 1, and user 2 has used commands 1 and 2 |
| Scenarios.FirstUserRows | app/dao/db.py:136-141 | user 1 contributes one joined row, carrying command 1 and its count |
| Scenarios.SecondUserRows | app/dao/db.py:136-141 | user 2 contributes two joined rows, for command 1 then command 2, each with its count |
| Scenarios.TwoUserJoinParts | app/dao/db.py:136-143 | the two-user database joins user 1's rows, then user 2's |
| Scenarios.TwoUserJoin | app/dao/db.py:136-143 | with users 1 and 2, where 1 used command 1 and 2 used both, the join is user 1's row followed by user 2's two rows |
| Scenarios.GroupTwo | app/dao/db.py:146-156 | a row of user 1 and a row of user 2 give two records of one entry each |
| Scenarios.GroupThree | app/dao/db.py:146-156 | one row of user 1 and two of user 2 give two records, the second holding two entries in row order |
| Scenarios.TwoUserReport | app/dao/db.py:134-158 | the two-user database reports user 1 with one entry, then user 2 with two entries, each with its command's name and count |
| Scenarios.TwoUserSetUp | app/dao/db.py:75-113 | adding users `alice` and `bob` and commands `help` and `say` to a fresh database stores exactly those rows |
| Scenarios.ThreeIncrements | app/dao/db.py:160-169 | `increment(1,1)`, `increment(2,2)` and `increment(2,1)` from no rows leave exactly those three rows, each counting 1 |
| Scenarios.TwoUserTables | app/dao/db.py:134-169 | after `increment(1,1)`, `increment(2,2)` and `increment(2,1)` the report is user 1 with `[{help, 1}]`, then user 2 with `[{help, 1}, {say, 1}]` |
| Scenarios.TwoUsers | app/dao/db.py:134-169 | the repository calls of that sequence return the report `[{1, alice, [{help, 1}]}, {2, bob, [{help, 1}, {say, 1}]}]` |
| Scenarios.DuplicateAdd | app/dao/db.py:75-84 | a second `add` of id 1 raises an integrity error, and `get_all` still shows the first row unchanged |
| Scenarios.DeleteMissing | app/dao/db.py:58-63 | `delete` of an absent id raises `UnmappedInstance`, and `get_by_id` still finds nothing |
| Scenarios.LegacyDemo | dao/db.py:67-76 | the demonstration lists `[]`, then the added user, then reads back the new username beside the old names |

## Left out

- SQLAlchemy machinery is not modelled: engines, sessions as objects, `create_all`, automap reflection (`prepare(reflect=True)`, `base.classes.statistics`) and `inspect(obj).mapper`. The tables are declared statically. `_asdict` is the row value itself, because its dict holds every column of the row.
- The legacy `models` module imported by dao/db.py is not part of this model. Its `User` is taken to be the same `users` row as in app/dao/models.py.
- Foreign keys are not enforced on insert. SQLite, the backend app/dao/tests/test_dao.py opens, does not check them by default, so `Store.Increment` accepts any pair. The report's inner join drops rows whose user or command is missing. `Store.IncrementKeepsForeignKeys` shows that the constraint is kept when both rows exist.
- Db.UserDao.Delete: deleting a user that `statistics` rows reference is modelled as removing that one `users` row, with `statistics` kept as it was. What the ORM does with the referencing rows is not modelled. `Report.DeletedUserReport` shows that the report is the same either way.
- Db.CommandDao.Delete: deleting a command that `statistics` rows reference is modelled as removing that one `commands` row, with `statistics` kept as it was. What the ORM does with the referencing rows is not modelled. `Report.DeletedCommandReport` shows that the report is the same either way.
- Db.Connector.constructor: an empty URL, on which the source's `assert url` raises `AssertionError`, is excluded by the precondition rather than modelled as an error. The rows of an existing database are taken to satisfy the schema, with every count at least 1, as every repository call leaves them.
- LegacyDb.Connector.constructor: the rows of an existing `users` table are taken to be stored under their own ids.
- The three integrity violations (duplicate primary key, duplicate name, NULL name) are collapsed into one `IntegrityError`. Which one the engine reports first is engine-specific.
- The column widths are not modelled: `BigInteger` ids, the 32-bit `Integer` count, and the `String(50)` limits. Ids and counts are unbounded integers, and strings have no length limit.
- A NULL `count` is not modelled. No repository call stores one, and `CountsPositive` shows that every stored count is at least 1.
- `StatisticsDao` also inherits `BaseDao.get_by_id` and `BaseDao.delete`. The `statistics` table has no `id` column, so those calls fail in the ORM. They are not modelled.
- Store.Rows: SQL gives no order for `get_all`, and the model lists rows by ascending primary key as one legal order.
- Report.Join: within one user, rows are listed by ascending command id. The query orders by user id only, so this is one legal order, not a promise of the source. The shape lemmas (`GroupIds`, `GroupRecords`, `GroupTotal`, `GroupAscending`) hold for any row order.
- Reads are not routed through `SessionScope`: a read-only session commits nothing and cannot change the tables.
- `session.close()` (the `finally` clause) releases a connection and has no effect on the tables.
- Concurrency, races between sessions, and retrying a failed insert are not modelled.
- The Telegram wiring is not modelled: handlers, polling, replies, and the `log_event` decorator in app/main.py and main.py. `log_event` registers a user on their first recognised command without counting it.
- The extensions (text-to-speech, screenshots, dog and cat photos) are not modelled. They call the network.
- Throttling is not modelled. It reads the wall clock and sleeps.
