# Database access layer: a Dafny model

This project models the SQLite data-access core of the bot's infrastructure
layer and proves properties of it:

- **Bindable values** (`bindable.rs`): every Rust scalar that can be bound to
  a query becomes exactly one positional argument. `u64` saturates at
  `i64::MAX`. A `NaiveDate` is bound as its `%Y-%m-%d` text.
- **The entity contract** (`entity.rs`): a Rust trait becomes an
  `EntityKind<T>` record of the type's table name, its ordered `(column,
  value)` encoding, its row decoder and its text id. It is instantiated with
  the `User` entity of the repository test.
- **The generic repository** (`repository.rs`, `crud.rs`): the
  `Repository<T>` class builds INSERT, SELECT, UPDATE and DELETE statements
  from the table and column names and binds the values in column order. Its
  methods are proved against specification functions of the store.
- **Migrations** (`migration.rs`): `ensure_database` adds a fallback table
  for each name whose schema lookup gives nothing. `run_migrations` runs the
  `.sql` files of a directory in listing order and stops at the first
  failure.
- **Schema lookup** (`schema.rs`): one bound query against `sqlite_master`.
  Every failure becomes `None`.
- **Connection configuration** (`config.rs`): the SQLite and PostgreSQL URLs
  and a parser that reads them back.

The database itself is an abstract store (`Store`). It is a catalog of tables
whose rows are keyed by their text primary key `id`, plus the effect of each
statement shape the layer sends. The exact text of each statement is given
by `Store.Sql`, and the lemmas show that its parameters are numbered `?1 ..
?n` in the order the arguments are bound. The `Store.Database` class is the
connection pool. Its `online` flag says whether the backend can be reached,
and a `ScriptRunner` function gives the effect of a migration script's text: the tables after the statements that ran, and the error of the statement that failed, if any.

Rust's traits (`Entity`, `Bindable`) become explicit records and closed
datatypes. The `async` operations become sequential methods.

Files: `wrappers.dfy` (Option, Result), `text.dfy` (decimals, joining, the
SQLite parameter scan), `bindable.dfy`, `store.dfy`, `schema.dfy`,
`entity.dfy`, `users.dfy`, `repositories.dfy`, `user_repository.dfy`,
`migration.dfy`, `dbconfig.dfy`.

## Model

| member | source | states |
|---|---|---|
| Bindable.SaturateU64 | src/infrastructure/database/bindable.rs:61-65 | the bound `i64` never exceeds the `u64` nor `i64::MAX`, and is either the value itself or `i64::MAX` |
| Bindable.ToArg | src/infrastructure/database/bindable.rs:16-95 | a value binds as text exactly when it is a `String` or a date, and as a 64-bit integer exactly when it is an `i64`, `u32` or `u64` |
| Bindable.Bind | src/infrastructure/database/bindable.rs:24-31 | binding keeps the earlier arguments and appends exactly one, the value's own argument |
| Bindable.CloneBox | src/infrastructure/database/bindable.rs:19-21 | the boxed copy equals the original and binds the same argument list |
| Bindable.U64Saturation | src/infrastructure/database/bindable.rs:56-67 | a `u64` up to `i64::MAX` binds unchanged, a larger one binds as `i64::MAX`, and `u64::MAX` is a case of the latter |
| Bindable.BindReadBack | src/infrastructure/database/bindable.rs:16-95 | reading a bound argument back as its own kind gives the value again (a saturated `u64` reads back as `i64::MAX`), and a date binds as its formatted text, which `Bindable.DateBindReadBack` reads back |
| Bindable.BindInjectiveWithinKind | src/infrastructure/database/bindable.rs:16-95 | two values of the same kind (other than `u64`) bind the same argument exactly when they are equal |
| Bindable.FormatDate | src/infrastructure/database/bindable.rs:81 | the `%Y-%m-%d` text is at least ten characters long; `Bindable.DateRoundTrip` and `Bindable.DateTextShape` describe it |
| Bindable.DateRoundTrip | src/infrastructure/database/bindable.rs:76-83 | parsing the `%Y-%m-%d` text of any date gives the same date back |
| Bindable.YearRoundTrip | src/infrastructure/database/bindable.rs:81 | the `%Y` year text, whether padded to four digits or signed, parses back to the year |
| Bindable.DateBindReadBack | src/infrastructure/database/bindable.rs:76-83 | the argument a date binds reads back as the same date |
| Bindable.FormatDateInjective | src/infrastructure/database/bindable.rs:81 | different dates are bound as different texts |
| Bindable.DateTextShape | src/infrastructure/database/bindable.rs:81 | for years 0..9999 the text is exactly `YYYY-MM-DD`, and its digit groups are the year, month and day |
| Entity.ColumnNames | src/infrastructure/database/repository.rs:43 | the column list has one name per encoded value, in encoding order |
| Entity.BoundArgs | src/infrastructure/database/repository.rs:29-31 | one argument per encoded value, the i-th being the i-th value's binding |
| Entity.GetText | tests/databse_tests.rs:46-48 | reading a text column succeeds exactly when the column exists and holds text, gives that text back, and a missing column is `ColumnNotFound` |
| Entity.GetBool | tests/databse_tests.rs:49 | reading the flag succeeds exactly when the column holds an integer, and the result is "integer is non-zero" |
| Users.NewUser | tests/databse_tests.rs:18-26 | a new user carries the given id, name and email and is not deleted |
| Users.ToValues | tests/databse_tests.rs:35-42 | the encoding's columns are `id`, `name`, `email`, `deleted`, in that order |
| Users.UsersTable | tests/databse_tests.rs:62-68 | the test's `users` table is well formed (distinct columns including `id`) and starts empty |
| Users.FromRow | tests/databse_tests.rs:10 | a successful decode takes `id`, `name` and `email` from text cells and `deleted` from an integer cell as "non-zero"; `Users.FromRowSucceeds` gives the exact success condition |
| Users.FromRowSucceeds | tests/databse_tests.rs:44-51 | decoding succeeds exactly when the three text columns and the integer flag are present, and yields those fields with the flag read as non-zero |
| Users.EncodedDecodes | tests/databse_tests.rs:44-51 | a row that holds a user's fields decodes to that user |
| Users.EncodedFits | tests/databse_tests.rs:62-68 | a row that holds a user's fields violates no NOT NULL column and is keyed by the user's id |
| Users.UserCells | tests/databse_tests.rs:35-42 | a user's bound values are stored as three texts and the flag as 0 or 1 |
| Users.AssignedEncodes | tests/databse_tests.rs:35-42 | the column assignments made from a user's values hold that user's fields and name exactly the table's columns |
| Users.StoredRowDecodes | tests/databse_tests.rs:35-51 | the row built from a user's bound values decodes back to the same user |
| Repositories.CreateStatement | src/infrastructure/database/repository.rs:43-51 | the INSERT asks for as many parameters as `create` binds values; its text is described by `Repositories.InsertParams` |
| Repositories.UpdateStatement | src/infrastructure/database/repository.rs:73-84 | the UPDATE asks for as many parameters as `update` binds; its text is described by `Repositories.UpdateParams` |
| Repositories.DeleteStatement | src/infrastructure/database/repository.rs:95-99 | both forms of delete ask for exactly one parameter, the id; their texts are described by `Repositories.KeyedParams` |
| Repositories.UpdateArgs | src/infrastructure/database/repository.rs:87-88 | `update` binds the entity's values in column order and then its id, last |
| Store.Sql | src/infrastructure/database/repository.rs:39-106 | the exact text of each statement the layer sends, also those of migration.rs lines 16-19 and schema.rs line 7; `Repositories.InsertParams`, `Repositories.UpdateParams`, `Repositories.KeyedParams`, `Migration.FallbackHasNoParams` and `Schema.SchemaQueryHasOneParam` describe its parameters |
| Repositories.Done | src/infrastructure/database/repository.rs:55-56 | the operation succeeds exactly when the statement does, and passes its error through |
| Repositories.Repository.BindValues | src/infrastructure/database/repository.rs:24-33 | the loop appends each value's argument to the query's arguments, in column order, and nothing else |
| Repositories.Repository.Create | src/infrastructure/database/repository.rs:39-57 | `create` runs the INSERT with the entity's values, and the new store and result are those of the specification function |
| Repositories.Repository.Fetch | src/infrastructure/database/repository.rs:59-67 | `fetch` returns `None` for a missing id, the decoded row for a present one, or the store's or decoder's error |
| Repositories.Repository.Update | src/infrastructure/database/repository.rs:69-91 | `update` runs the UPDATE with the values followed by the id, and the new store and result are those of the specification function |
| Repositories.Repository.Delete | src/infrastructure/database/repository.rs:93-106 | `delete` runs the soft or hard DELETE on the id, and the new store and result are those of the specification function |
| Repositories.InsertParams | src/infrastructure/database/repository.rs:43-51 | the INSERT text asks for parameters `?1 .. ?n`, one per column, in order, so the i-th bound value fills the i-th column |
| Repositories.UpdateParams | src/infrastructure/database/repository.rs:73-84 | the UPDATE text asks for `?1 .. ?n` for the SET clauses and `?n+1` for the id, matching the binding order |
| Repositories.UpdateClausesParams | src/infrastructure/database/repository.rs:73-84 | the SET clauses joined with `, ` followed by the WHERE clause carry parameters numbered one to n+1 |
| Repositories.KeyedParams | src/infrastructure/database/repository.rs:59-106 | the SELECT, soft-DELETE and DELETE texts each ask for the single parameter `?1`, the id |
| Repositories.KeyedPrepares | src/infrastructure/database/repository.rs:59-106 | a lookup or delete by id on a keyed table prepares, whatever the id |
| Repositories.OfflineFails | src/infrastructure/database/repository.rs:39-106 | with the backend unreachable every operation fails with a connection error and changes nothing |
| Repositories.FetchMissing | src/infrastructure/database/repository.rs:59-67 | fetching an id with no row gives `Ok(None)` |
| Repositories.FetchPresent | src/infrastructure/database/repository.rs:59-67 | fetching a present id gives what the decoder makes of its row, error included |
| Repositories.HardDeleteThenFetch | src/infrastructure/database/repository.rs:93-106 | a physical delete removes that row and nothing else, also succeeds for a missing id, and the id then fetches as `None` |
| Repositories.SoftDeleteNeedsFlag | src/infrastructure/database/repository.rs:95-97 | a logical delete on a table without a `deleted` column fails with "no such column" and changes nothing |
| Repositories.UpdateMissingIsNoOp | src/infrastructure/database/repository.rs:69-91 | updating an entity whose id has no row succeeds and changes nothing |
| Repositories.OperationsKeepInv | src/infrastructure/database/repository.rs:39-106 | create, update and delete keep the store well formed: distinct columns, rows keyed by their own id, NOT NULL respected |
| UserRepository.CreateThenFetch | tests/databse_tests.rs:77-85 | creating a new user stores exactly its row, and fetching its id then gives the same user |
| UserRepository.DuplicateCreate | src/infrastructure/database/repository.rs:39-57 | creating a user whose id is taken fails with a unique violation on `id` and changes nothing |
| UserRepository.UpdateThenFetch | tests/databse_tests.rs:88-94 | updating a stored user replaces its row, and fetching it then gives the updated user |
| UserRepository.UpdateIdempotent | src/infrastructure/database/repository.rs:69-91 | a second identical update succeeds and leaves the store as the first one left it |
| UserRepository.SoftDeleteThenFetch | tests/databse_tests.rs:97-100 | a logical delete keeps the row with its flag set, and the user then fetches as deleted with its other fields unchanged |
| UserRepository.CreateStep | tests/databse_tests.rs:77-85 | after `create`, `fetch` of the new id gives the user back and the table still holds only well-formed rows |
| UserRepository.UpdateStep | tests/databse_tests.rs:88-94 | after `update`, the stored row decodes to the updated user and `fetch` returns it |
| UserRepository.SoftDeleteStep | tests/databse_tests.rs:97-100 | after a logical delete, `fetch` returns the user marked deleted |
| UserRepository.HardDeleteStep | tests/databse_tests.rs:102-104 | after a physical delete, `fetch` returns `None` |
| UserRepository.RepositoryTest | tests/databse_tests.rs:58-107 | the repository test's sequence yields Alice, then "Alice Updated", then the same user marked deleted, then nothing |
| Schema.GetTableSchema | src/infrastructure/database/schema.rs:3-16 | a text is returned only for a table the reachable catalog holds, and it is that table's definition; `Schema.SchemaFound` and `Schema.SchemaMissing` give both directions |
| Schema.SchemaFound | src/infrastructure/database/schema.rs:3-16 | the lookup gives a text exactly when the backend is reachable and the catalog holds that table with that definition text |
| Schema.SchemaMissing | src/infrastructure/database/schema.rs:3-16 | the lookup gives `None`, never an error, exactly when the backend is unreachable, the table is absent or its definition is NULL |
| Schema.SchemaQueryHasOneParam | src/infrastructure/database/schema.rs:7-8 | the catalog query asks for exactly one parameter, which the table name fills |
| Migration.ExecutedCreateFallback | src/infrastructure/database/migration.rs:16-20 | the fallback CREATE adds `(id TEXT PRIMARY KEY, name TEXT)` for an absent table, leaves an existing one alone, and rejects a name that does not parse |
| Migration.FallbackHasNoParams | src/infrastructure/database/migration.rs:16-20 | the fallback CREATE splices the name and binds no parameter |
| Migration.EnsureDatabase | src/infrastructure/database/migration.rs:10-24 | the loop's result and final store are those of the ordered fold over the names |
| Migration.EnsuredSplit | src/infrastructure/database/migration.rs:14-22 | the names after a prefix are processed on what the prefix left, and only when the prefix succeeded |
| Migration.EnsuredPreserves | src/infrastructure/database/migration.rs:10-24 | existing tables are never changed, and every new table is a fallback table for one of the names |
| Migration.EnsuredSettles | src/infrastructure/database/migration.rs:10-24 | after a success every name is settled: its table exists, and either its definition text is known or the name is a plain identifier, so that the `IF NOT EXISTS` CREATE would leave it alone |
| Migration.EnsuredSettledNoOp | src/infrastructure/database/migration.rs:14-22 | with the backend reachable and every name already settled (as above), nothing is created and the call succeeds |
| Migration.EnsuredIdempotent | src/infrastructure/database/migration.rs:10-24 | a second call with the same names after a success creates nothing and succeeds |
| Migration.LastIndex | src/infrastructure/database/migration.rs:38 | gives the position of the last occurrence of the character, and none exactly when it does not occur |
| Migration.Extension | src/infrastructure/database/migration.rs:38 | an extension is the dot-free part of the name after a '.' that is not the name's first character; `Migration.SqlExtensionIff` gives the `.sql` case exactly |
| Migration.SqlExtensionIff | src/infrastructure/database/migration.rs:38 | a file is a script exactly when its name is longer than `.sql` and ends with it |
| Migration.RunMigrations | src/infrastructure/database/migration.rs:26-44 | the loop's result and final store are those of the specification function, including every I/O error path |
| Migration.MigratedRunsScripts | src/infrastructure/database/migration.rs:36-42 | over readable files, running the listing is running its `.sql` contents in listing order |
| Migration.RunAllSplit | src/infrastructure/database/migration.rs:36-42 | a failing script stops the run; the scripts before it, and the statements of the failing script that ran, stay applied |
| Migration.NothingToRun | src/infrastructure/database/migration.rs:32-36 | a missing directory that can be created, or an empty one, runs nothing and succeeds |
| Migration.NoScriptsNoChange | src/infrastructure/database/migration.rs:38 | a listing with no `.sql` file succeeds and changes nothing |
| DbConfig.GetDbUrl | src/infrastructure/database/config.rs:20-28 | the URL starts with the scheme of its variant; `DbConfig.SchemeIdentifiesVariant`, `DbConfig.SqliteRoundTrip` and `DbConfig.PostgresRoundTrip` describe the rest |
| DbConfig.SchemeIdentifiesVariant | src/infrastructure/database/config.rs:20-28 | a URL starts with `sqlite://` exactly when it comes from an SQLite configuration, and with `postgresql://` exactly when it comes from a PostgreSQL one |
| DbConfig.SplitAtJoin | src/infrastructure/database/config.rs:23-26 | cutting at the first separator undoes the joining of a part free of it |
| DbConfig.SqliteRoundTrip | src/infrastructure/database/config.rs:22 | the SQLite URL parses back to its configuration |
| DbConfig.AuthorityRoundTrip | src/infrastructure/database/config.rs:23-26 | `user:password@host:port/dbname` parses back to its parts when the user and host hold no `:` and the password no `@` |
| DbConfig.PostgresRoundTrip | src/infrastructure/database/config.rs:23-26 | under the same condition the PostgreSQL URL parses back to its configuration |
| DbConfig.UrlNotInjective | src/infrastructure/database/config.rs:23-26 | because parts are not escaped, two different configurations can produce the same URL |

## Left out

- `f32` and `f64` values (bindable.rs lines 89-90) are not modelled. Floating point is outside the model.
- connection.rs, adapter.rs, database_adapter.rs, transaction.rs, macros.rs and mod.rs are not part of this model.
- The connection pool, concurrency and `async` scheduling are not modelled. Each call is one sequential step on a `Database` object, whose `online` flag stands for whether the backend can be reached.
- SQLite itself is an abstract store, not a SQL engine:
  - Statements are values with a fixed text (`Store.Sql`), not parsed SQL.
  - Column type affinity is not modelled.
  - Only plain identifiers are accepted as spliced names, so SQL keywords, quoting and case-insensitive names are not modelled.
  - Views and indexes in `sqlite_master` are not modelled.
  - Rows are keyed by a text `id`, and an `id` bound as a non-text value is refused.
- Migration scripts are opaque. A `ScriptRunner` function gives a script's effect, including the partial effect of a script whose later statement fails. File system failures are inputs:
  - an `Unreadable` entry;
  - a file whose contents are `None`;
  - a listing that is an `Err`;
  - a directory `Missing(false)` that cannot be created.
- The test's CREATE TABLE statement is modelled as the `Users.UsersTable` value, not executed as SQL text.
- `sqlite_master` keeps a normalised definition text, so the fallback table's recorded text drops `IF NOT EXISTS`.
- Repositories.Repository.BindValues: returns the argument list itself rather than the source's `Result`, which is always `Ok`.
- Users.FromRowSucceeds: `fetch` decodes through the derived `FromRow`, which reads `deleted` as a `bool` from any integer. The hand-written `from_row` reads it through an `i32` and compares with zero. The two agree on every row the repository writes, because the flag is always 0 or 1. Truncation of wider integers to `i32` is not modelled.
- Bindable.BindInjectiveWithinKind: excludes `u64`, because every `u64` above `i64::MAX` binds the same argument.
- DbConfig.AuthorityRoundTrip: holds only when the user and host contain no `:` and the password no `@`. `DbConfig.UrlNotInjective` shows why no unconditional round trip exists.
