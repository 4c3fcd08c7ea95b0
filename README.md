# go-todo data layer, modelled in Dafny

This project models the core of a small Go todo service. It covers two parts:

- **Records and status** (`models/models.go`). A status is an integer code, with
  Open = 0, InProgress = 1 and Closed = 2. Its display label is total: any other
  code reads "Unknown". `ToDo` and `Tag` records each have an `IsEmpty` test, which
  compares deeply with the zero value and is used as the "not found" sentinel.
  A ToDo's tag list is `Option<seq<Tag>>`, so a nil list (`None`) stays distinct
  from an empty one (`Some([])`).
- **The SQLite data-access layer** (`middleware/db.go`). `Store` is a class that
  holds the three tables `todos`, `tags` and `todos_tags` as sequences of rows in
  storage order. It also holds the set of tables that exist and an abstract SQL
  clock that only moves forward. Every operation of the layer is a method on it.
  - Writers run the schema step first, as every call of the source does on connecting.
  - `rows.Next()` scans are `while` loops proved against specification functions.
  - The write-then-read-back operations call the read method.

Each SQL statement is modelled by its effect on the rows:

- A plain INSERT gets SQLite's rowid: one more than the largest rowid, or 1 in an
  empty table (`Tables.NextRowId`).
- `WHERE id = ?` is `Tables.Lookup`.
- DELETE is `Tables.DeleteRows`.
- The UPDATE is `Db.UpdateTodoRows`.
- The `tags.name` column is declared `STRING`, which SQLite gives NUMERIC
  affinity. A name that is an integer literal within 64 bits is stored as an
  INTEGER and read back in that integer's canonical text, so "007" comes back
  as "7" (`Db.StoredName`). Names that are not numeric are stored as given.
- The inner join of `getTagsOfTodo` is `Db.JoinTags`. It yields one tag per
  association row of the todo, in association-table order, and skips rows whose tag
  is gone.
- A single fetch is `Db.ReadTodo`.

The store invariant `Valid()` says:

- keys are ascending, and therefore unique;
- a table that does not exist has no rows;
- no timestamp is later than the clock, and no row was updated before it was created.

`scenarios.dfy` replays the shape of the repository's tests as client code. One
scenario shows a consequence of combining two behaviours: deletes never cascade, and
the tables have no AUTOINCREMENT, so rowids are reused.

1. A todo's tags are associated.
2. The todo is deleted, and it was the newest row.
3. The next todo inserted gets the same id. Its read-back carries the deleted
   todo's tags, because the orphaned association rows name that id.

Behaviours of the code worth noting:

- A found todo with no tags gets a nil tag list (`None`), not an empty one.
- Ids are reused after the newest row is deleted, so they are not strictly
  monotonic over the store's lifetime.
- A freshly inserted todo is read back with whatever tags association rows already
  give its id, so its tags are not always empty.

## Model

| member | source | states |
|---|---|---|
| `Models.StatusString` | models/models.go:16-27 | 0, 1 and 2 label as "Open", "In Progress" and "Closed", each exactly for its own code; every other integer labels "Unknown", so the function is total |
| `Models.Tag.IsEmpty` | models/models.go:53-55 | a Tag is empty exactly when id is 0, name is "" and createdAt is "" |
| `Models.ToDo.IsEmpty` | models/models.go:48-50 | a ToDo is empty exactly when id is 0, every string is "", status is Open (0) and tags is nil (`None`); a non-nil empty tag list makes it non-empty |
| `Models.ModelExamples` | models/models_test.go:7-67 | the labels of Open, InProgress, Closed, 10 and -1; a ToDo with id 12 is not empty; a Tag with id 1 is not empty; an all-zero ToDo with a non-nil empty tag list is not empty |
| `Tables.NextRowId` | middleware/db.go:75-81 | the rowid an INSERT assigns exceeds every key in the table; it is 1 in an empty table and otherwise one more than an existing key, the largest |
| `Tables.Lookup` | middleware/db.go:99-101 | `WHERE id = ?` finds a row of the table that has that key, and finds nothing exactly when no row has it |
| `Tables.DeleteRows` | middleware/db.go:169-172 | after `DELETE ... WHERE id = ?` the table holds exactly the old rows whose key differs, and no more rows than before |
| `Tables.LookupAt` | middleware/db.go:99-101 | with unique keys, the lookup returns the row stored under the key |
| `Tables.LookupAppend` | middleware/db.go:75-88 | a lookup after an append returns the old answer if there was one, else the new row if its key matches |
| `Tables.LookupInserted` | middleware/db.go:75-88 | the inserted row is found again under the rowid it was given |
| `Tables.InsertKeepsIncreasing` | middleware/db.go:75-81 | appending under the next rowid keeps keys ascending and unique |
| `Tables.LookupAfterDelete` | middleware/db.go:169-172 | after a delete the deleted key finds nothing, and every other key finds what it found before |
| `Tables.DeleteAbsent` | middleware/db.go:169-185 | deleting a key no row holds leaves the table unchanged |
| `Tables.DeleteKeepsIncreasing` | middleware/db.go:169-172 | a delete keeps the remaining keys ascending |
| `Tables.DeleteCount` | middleware/db.go:169-185 | the rows-affected count of a delete on a unique key is 1 when the key is present and 0 when it is absent |
| `Db.CreateTablesStopsAtFirstFailure` | middleware/db.go:37-51 | the tables before the first failing CREATE are created, its error is returned, no later table is tried; without failure all are created and no error is returned |
| `Db.CreateTablesOnlyAdds` | middleware/db.go:10-35 | CREATE TABLE IF NOT EXISTS never drops a table and adds only tables it names |
| `Db.SchemaIdempotent` | middleware/db.go:10-51 | on a store that already has all three tables, schema creation leaves the set of tables unchanged, whatever fails |
| `Db.CreateTables` | middleware/db.go:37-51 | the statements run in order and the first failure ends the sequence; an error is returned exactly when some statement fails, and it names a failing table (its other properties: `Db.CreateTablesStopsAtFirstFailure`, `Db.CreateTablesOnlyAdds`) |
| `Db.Decimal` | middleware/db.go:12 | a natural number renders as a non-empty string of decimal digits that starts with '0' exactly when the number is 0, so it has no leading zeros; `Db.DecimalRoundTrip` reads it back |
| `Db.DecimalRoundTrip` | middleware/db.go:237 | reading the decimal digits of a number gives the number back |
| `Db.IntegerText` | middleware/db.go:237 | the text of a stored integer is a canonical literal: "0", or an optional minus sign then digits with no leading zero and no plus sign |
| `Db.IntegerTextRoundTrip` | middleware/db.go:237 | parsing the text of an integer gives that integer back |
| `Db.DigitsRoundTrip` | middleware/db.go:237 | digits without a leading zero are exactly the decimal text of their value |
| `Db.CanonicalRoundTrip` | middleware/db.go:237 | rendering the value of a canonical literal gives the literal back, so each integer has exactly one canonical text |
| `Db.StoredName` | middleware/db.go:21 | under NUMERIC affinity, a name that is not an integer literal, or whose value is outside 64 bits, is stored unchanged; an integer literal within 64 bits is stored as its value and read back as the canonical literal of that value, which `Db.CanonicalRoundTrip` makes unique |
| `Db.StoredNameIdempotent` | middleware/db.go:212-237 | inserting a name that was read back from the tags table stores it unchanged |
| `Db.StoredNameExamples` | middleware/db.go:21 | "007" reads back as "7", "+12" as "12" and "-0" as "0"; "tag", "0x1A" and "" are kept |
| `Db.Hydrate` | middleware/db.go:197-203 | the slice built by appending is nil exactly when nothing was appended, and otherwise holds what was appended |
| `Db.JoinTags` | middleware/db.go:192 | the join yields at most one tag per association row, since it matches on the tags key (its contents and order: `Db.JoinTagsMembers`, `Db.AssociateThenJoin`) |
| `Db.Timestamp` | middleware/db.go:12 | a clock reading renders as a non-empty string of decimal digits |
| `Db.TodoRecord` | middleware/db.go:132 | a scanned todos row keeps its key, has nil tags, and is never the empty ToDo |
| `Db.TagRecord` | middleware/db.go:237 | a scanned tags row keeps its key and name, and is never the empty Tag |
| `Db.JoinTagsMembers` | middleware/db.go:192-205 | a tag is in a todo's join exactly when some association row of that todo names a tag row that still exists, and the tag is that row |
| `Db.JoinTagsUnreferenced` | middleware/db.go:192-205 | a todo that no association row names joins no tags |
| `Db.AssociateThenJoin` | middleware/db.go:271-274 | associating an existing tag appends that tag at the end of the todo's join; associating the same pair twice repeats it |
| `Db.AssociateOtherTodo` | middleware/db.go:192-205 | an association row for another todo does not change this todo's join |
| `Db.JoinAfterTagDelete` | middleware/db.go:248-251 | after a tag row is deleted, every todo's join is the old join without that tag, other tags in place |
| `Db.ReadTodo` | middleware/db.go:94-120 | a single fetch is empty exactly when no row has the id; on a hit it carries the row's id, title, description, timestamps and status; its tags are the join, and nil exactly when the join is empty |
| `Db.UpdateTodoRows` | middleware/db.go:145-148 | the UPDATE sets title, description, status and updatedAt on the row with the key; createdAt, the key and every other row stay |
| `Db.LookupAfterUpdate` | middleware/db.go:145-162 | a lookup after the update sees the new values under the updated key and the old rows under other keys |
| `Db.UpdateTodoRowsKeeps` | middleware/db.go:145-148 | the update keeps keys ascending and timestamps ordered, and changes nothing when no row has the key |
| `Db.Store.constructor` | middleware/db.go:56 | a new database file has no tables, no rows and clock 0 |
| `Db.Store.Initialise` | middleware/db.go:10-35 | one CREATE TABLE IF NOT EXISTS: adds the table unless its statement fails, in which case it returns that table's SchemaError |
| `Db.Store.CheckOrCreateTables` | middleware/db.go:37-51 | the tables and the error equal those of the three statements issued in order, stopping at the first failure; rows are untouched |
| `Db.Store.Connect` | middleware/db.go:63-64 | the schema step that every call runs on connecting; afterwards all three tables exist and rows are untouched |
| `Db.Store.InsertTodo` | middleware/db.go:71-92 | appends a row under the next rowid with the given title and description, status 0 whatever was passed, and created and updated at the current clock; returns its read-back, which is non-empty, has that id, and has nil tags when no association row names the id |
| `Db.Store.GetTodo` | middleware/db.go:94-120 | returns the single fetch of the current tables: the empty ToDo and no error on a miss, the hydrated row on a hit |
| `Db.Store.GetAllTodos` | middleware/db.go:122-138 | one ToDo per stored row, in storage order, each with nil tags |
| `Db.Store.UpdateTodo` | middleware/db.go:140-163 | overwrites title, description, status (any integer) and updatedAt (no earlier than before) of the row with the id, keeping id, createdAt and all other rows; on a missing id no row changes and the empty ToDo is returned |
| `Db.Store.DeleteTodo` | middleware/db.go:165-186 | removes the row with the id and returns 1, or 0 when there was none; tags and association rows are untouched; a later fetch of the id is empty |
| `Db.Store.GetTagsOfTodo` | middleware/db.go:188-206 | the scan yields exactly the join for the todo, nil when it is empty |
| `Db.Store.InsertTag` | middleware/db.go:208-228 | appends a row under the next rowid holding the name as the column's NUMERIC affinity stores it, created at the current clock, and returns it, non-empty; a name that is not an integer literal comes back as given |
| `Db.Store.GetTag` | middleware/db.go:230-242 | returns the tag row with no error on a hit; on a miss, the empty Tag together with ErrNoRows |
| `Db.Store.DeleteTag` | middleware/db.go:244-265 | removes the row with the id and returns 1, or 0 when there was none; todos and association rows are untouched |
| `Db.Store.GetAllTags` | middleware/db.go:286-302 | one Tag per stored row, in storage order |
| `Db.Store.AssociateTag` | middleware/db.go:267-284 | always appends a join row under the next rowid, naming the given todo and tag, and returns that id; nothing checks that either exists or that the pair is new |

## Left out

- `createConnection` (middleware/db.go:54-67): opening the file and `Ping` are not modelled. The store is state that is already open, and only the schema step of connecting is modelled. Every call opens its own connection; the model has no connections.
- Read operations do not repeat the schema step. In the source they also create missing tables. A missing table has no rows in the model, so every read returns what the source returns; the only difference is that the read leaves the tables missing.
- Panics from `checkErr`, `log.Fatalf`, and the driver's prepare, exec and scan failures are not modelled. The only errors modelled are ErrNoRows from `getTag` and a failing CREATE TABLE, chosen by the `failing` parameter.
- Real time: `strftime('%s', 'now')` is an abstract clock that the caller advances by `elapsed`. A reading renders as its decimal digits. The driver's conversion of TIMESTAMP columns to a date string is not modelled.
- Db.Store.InsertTag: only integer literals are converted by `Db.StoredName`. SQLite also converts real literals ("3.0", "1e3", "1.5"), integer literals outside 64 bits, and numerals with white space around them; it then reads them back in its own numeric text form. The model stores those names unchanged.
- Integer width: ids (int64) and status codes (Go int) are unbounded integers. SQLite's fallback to a random rowid once the largest rowid reaches 2^63-1 is not modelled.
- The join's row order assumes SQLite's plan for the query, with `todos_tags` as the outer loop. The source's SQL does not fix that order.
- `GetAllTodos` and `GetAllTags` return a sequence. The source returns a nil slice when there are no rows, and the model does not tell that apart from an empty slice.
- Concurrency: the model is sequential. A write and its read-back therefore see the same state, and the race between them is not modelled.
- Logging and printing.
- `middleware/handlers.go`, `router/router.go` and `main.go`: HTTP plumbing, JSON and path parsing are not part of this model.
