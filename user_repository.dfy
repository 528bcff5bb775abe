/** The repository instantiated with the `User` entity over the `users`
    table of the repository test: the exact statement texts it sends, and
    what create, fetch, update and delete do to that table. */
module UserRepository {
  import opened Wrappers
  import opened Text
  import opened Bindable
  import opened Store
  import opened Entity
  import opened Users
  import opened Repositories

  /** A store holding the `users` table as the test defines it, well formed. */
  ghost predicate UsersReady(tables: Tables)
  {
    "users" in tables && tables["users"].columns == UsersColumns && TableInv(tables["users"])
  }

  lemma UsersNamesParse()
    ensures FirstBadName(["users"] + UserColumnNames).None?
    ensures SyntaxProblem(Insert("users", UserColumnNames)).None?
    ensures SyntaxProblem(UpdateById("users", UserColumnNames)).None?
    ensures IsIdentifier("users")
  {
    assert IsIdentifier("users") && IsIdentifier("id") && IsIdentifier("name");
    assert IsIdentifier("email") && IsIdentifier("deleted");
    assert ["users"] + UserColumnNames == ["users", "id", "name", "email", "deleted"];
  }

  /** The statement and arguments `create` and `update` use for a user. */
  lemma UserStatements(u: User)
    ensures ColumnNames(UserEntity.toValues(u)) == UserColumnNames
    ensures CreateStatement(UserEntity, u) == Insert("users", UserColumnNames)
    ensures UpdateStatement(UserEntity, u) == UpdateById("users", UserColumnNames)
    ensures BoundArgs(UserEntity.toValues(u))
         == [TextArg(u.id), TextArg(u.name), TextArg(u.email), IntArg(if u.deleted then 1 else 0)]
    ensures UpdateArgs(UserEntity, u) == BoundArgs(UserEntity.toValues(u)) + [TextArg(u.id)]
    ensures Names(UsersColumns) == UserColumnNames
  {
    assert UserEntity.toValues(u) == ToValues(u);
  }

  /** The row `create` stores for a user. */
  function InsertedRow(u: User): (row: Row)
    ensures Encodes(row, u)
    ensures row.Keys == set c | c in Names(UsersColumns)
  {
    var values := ToValues(u);
    var m := Assign(ColumnNames(values), Cells(BoundArgs(values)));
    AssignedEncodes(u);
    NewRowEncodes(m, u);
    NewRow(UsersColumns, m)
  }

  /** The assignments `update` makes for a user. */
  function Assignments(u: User): (m: map<string, Cell>)
    ensures Encodes(m, u)
    ensures m.Keys == set c | c in Names(UsersColumns)
  {
    var values := ToValues(u);
    AssignedEncodes(u);
    Assign(ColumnNames(values), Cells(BoundArgs(values)))
  }

  lemma CreatePrepares(tables: Tables, u: User)
    requires UsersReady(tables)
    ensures PrepareError(tables, CreateStatement(UserEntity, u), BoundArgs(UserEntity.toValues(u))).None?
  {
    UsersNamesParse();
    UserStatements(u);
    PrepareOk(tables, Insert("users", UserColumnNames), BoundArgs(UserEntity.toValues(u)));
  }

  lemma UpdatePrepares(tables: Tables, u: User)
    requires UsersReady(tables)
    ensures PrepareError(tables, UpdateStatement(UserEntity, u), UpdateArgs(UserEntity, u)).None?
  {
    UsersNamesParse();
    UserStatements(u);
    assert forall c :: c in UserColumnNames + ["id"] ==> c in UserColumnNames;
    PrepareOk(tables, UpdateById("users", UserColumnNames), UpdateArgs(UserEntity, u));
  }

  lemma UsersKeyed(tables: Tables)
    requires UsersReady(tables)
    ensures Keyed(tables, UserEntity.tableName)
  {
    UsersNamesParse();
    UserStatements(NewUser("", "", ""));
  }

  /** The store after `row` is stored under `key` in the `users` table. */
  function WithRow(tables: Tables, key: string, row: Row): Tables
    requires "users" in tables
  {
    tables["users" := tables["users"].(rows := tables["users"].rows[key := row])]
  }

  lemma CreateStores(tables: Tables, run: ScriptRunner, u: User)
    requires UsersReady(tables) && u.id !in tables["users"].rows
    ensures CreateOutcome(true, tables, run, UserEntity, u) == (Ok(Unit), WithRow(tables, u.id, InsertedRow(u)))
  {
    var t := tables["users"];
    var row := InsertedRow(u);
    var args := BoundArgs(UserEntity.toValues(u));
    CreatePrepares(tables, u);
    UserStatements(u);
    ExecutedInsert(tables, run, "users", UserColumnNames, args);
    EncodedFits(row, u);
    assert NewRow(t.columns, Assign(UserColumnNames, Cells(args))) == row;
    assert InsertRow(t, UserColumnNames, args) == Ok(t.(rows := t.rows[u.id := row]));
  }

  /** Storing a row that encodes a user under the user's id keeps the store
      ready and makes the id fetch as that user. */
  lemma StoredFetches(tables: Tables, u: User, row: Row)
    requires UsersReady(tables) && Encodes(row, u)
    requires row.Keys == set c | c in Names(UsersColumns)
    ensures UsersReady(WithRow(tables, u.id, row))
    ensures FetchOutcome(true, WithRow(tables, u.id, row), UserEntity, u.id) == Ok(Some(u))
  {
    var t := tables["users"];
    EncodedFits(row, u);
    assert RowFits(t, u.id, row);
    var after := WithRow(tables, u.id, row);
    assert TableInv(after["users"]);
    UsersKeyed(after);
    FetchPresent(after, UserEntity, u.id);
    EncodedDecodes(row, u);
  }

  /** Creating a user whose id is free stores exactly one new row, under that
      id, and fetching the id gives the user back. */
  lemma CreateThenFetch(tables: Tables, run: ScriptRunner, u: User)
    requires UsersReady(tables) && u.id !in tables["users"].rows
    ensures CreateOutcome(true, tables, run, UserEntity, u) == (Ok(Unit), WithRow(tables, u.id, InsertedRow(u)))
    ensures UsersReady(WithRow(tables, u.id, InsertedRow(u)))
    ensures FetchOutcome(true, WithRow(tables, u.id, InsertedRow(u)), UserEntity, u.id) == Ok(Some(u))
  {
    CreateStores(tables, run, u);
    StoredFetches(tables, u, InsertedRow(u));
  }

  /** Creating a user whose id is taken fails on the primary key and changes
      nothing. */
  lemma DuplicateCreate(tables: Tables, run: ScriptRunner, u: User)
    requires UsersReady(tables) && u.id in tables["users"].rows
    ensures CreateOutcome(true, tables, run, UserEntity, u) == (Err(UniqueViolated("id")), tables)
  {
    var t := tables["users"];
    var row := InsertedRow(u);
    var args := BoundArgs(UserEntity.toValues(u));
    CreatePrepares(tables, u);
    UserStatements(u);
    ExecutedInsert(tables, run, "users", UserColumnNames, args);
    EncodedFits(row, u);
    assert NewRow(t.columns, Assign(UserColumnNames, Cells(args))) == row;
    assert InsertRow(t, UserColumnNames, args) == Err(UniqueViolated("id"));
  }

  /** The row `update` leaves under a stored user's id. */
  function UpdatedRow(tables: Tables, u: User): (row: Row)
    requires UsersReady(tables) && u.id in tables["users"].rows
    ensures Encodes(row, u)
    ensures row.Keys == set c | c in Names(UsersColumns)
  {
    tables["users"].rows[u.id] + Assignments(u)
  }

  lemma UpdateStores(tables: Tables, run: ScriptRunner, u: User)
    requires UsersReady(tables) && u.id in tables["users"].rows
    ensures UpdateOutcome(true, tables, run, UserEntity, u) == (Ok(Unit), WithRow(tables, u.id, UpdatedRow(tables, u)))
  {
    var t := tables["users"];
    var m := Assignments(u);
    var row := UpdatedRow(tables, u);
    var args := UpdateArgs(UserEntity, u);
    UpdatePrepares(tables, u);
    UserStatements(u);
    ExecutedUpdate(tables, run, "users", UserColumnNames, args);
    assert args[..4] == BoundArgs(UserEntity.toValues(u)) && args[4] == TextArg(u.id);
    EncodedFits(row, u);
    RemoveThenStore(t.rows, u.id, row);
    assert UpdateRow(t, m, TextArg(u.id)) == Ok((1, t.(rows := t.rows[u.id := row])));
  }

  /** Updating a stored user overwrites every column of its row, and
      fetching the id gives the updated user back. */
  lemma UpdateThenFetch(tables: Tables, run: ScriptRunner, u: User)
    requires UsersReady(tables) && u.id in tables["users"].rows
    ensures UpdateOutcome(true, tables, run, UserEntity, u) == (Ok(Unit), WithRow(tables, u.id, UpdatedRow(tables, u)))
    ensures UsersReady(WithRow(tables, u.id, UpdatedRow(tables, u)))
    ensures FetchOutcome(true, WithRow(tables, u.id, UpdatedRow(tables, u)), UserEntity, u.id) == Ok(Some(u))
  {
    UpdateStores(tables, run, u);
    StoredFetches(tables, u, UpdatedRow(tables, u));
  }

  lemma MergeTwice(row: Row, m: map<string, Cell>)
    ensures (row + m) + m == row + m
  {
    var a := (row + m) + m;
    assert a.Keys == (row + m).Keys;
    forall c | c in a.Keys ensures a[c] == (row + m)[c] { }
  }

  lemma RestoreSame(tables: Tables, key: string)
    requires "users" in tables && key in tables["users"].rows
    ensures WithRow(tables, key, tables["users"].rows[key]) == tables
  {
    var rows := tables["users"].rows;
    assert rows[key := rows[key]] == rows;
    assert tables["users"].(rows := rows) == tables["users"];
  }

  /** Updating with the same user twice leaves the store as one update does. */
  lemma UpdateIdempotent(tables: Tables, run: ScriptRunner, u: User)
    requires UsersReady(tables) && u.id in tables["users"].rows
    ensures var once := UpdateOutcome(true, tables, run, UserEntity, u).1;
      UpdateOutcome(true, once, run, UserEntity, u) == (Ok(Unit), once)
  {
    UpdateThenFetch(tables, run, u);
    var row := UpdatedRow(tables, u);
    var once := WithRow(tables, u.id, row);
    UpdateStores(once, run, u);
    assert once["users"].rows[u.id] == row;
    MergeTwice(tables["users"].rows[u.id], Assignments(u));
    assert UpdatedRow(once, u) == row;
    RestoreSame(once, u.id);
  }

  lemma SoftDeletePrepares(tables: Tables, id: string)
    requires UsersReady(tables)
    ensures PrepareError(tables, SoftDeleteById("users"), [TextArg(id)]).None?
  {
    UsersNamesParse();
    UsersNames();
    var stmt := SoftDeleteById("users");
    assert FirstBadName(SplicedNames(stmt)).None? by {
      assert SplicedNames(stmt) == ["users"];
    }
    PrepareOk(tables, stmt, [TextArg(id)]);
  }

  /** A stored row with its `deleted` column set to 1. */
  function MarkedRow(tables: Tables, id: string): Row
    requires "users" in tables && id in tables["users"].rows
  {
    tables["users"].rows[id] + map["deleted" := Integer(1)]
  }

  lemma FlagKeepsKeys(row: Row, columns: set<string>)
    requires row.Keys == columns && "deleted" in columns
    ensures (row + map["deleted" := Integer(1)]).Keys == columns
  {
  }

  lemma MarkedKeys(tables: Tables, id: string)
    requires UsersReady(tables) && id in tables["users"].rows
    ensures MarkedRow(tables, id).Keys == set c | c in Names(UsersColumns)
  {
    var old_row := tables["users"].rows[id];
    assert RowFits(tables["users"], id, old_row);
    var columns := set c | c in Names(UsersColumns);
    UsersNames();
    assert UserColumnNames[3] == "deleted";
    FlagKeepsKeys(old_row, columns);
  }

  lemma MarkedEncodes(tables: Tables, u: User)
    requires UsersReady(tables) && u.id in tables["users"].rows
    requires FromRow(tables["users"].rows[u.id]) == Ok(u)
    ensures Encodes(MarkedRow(tables, u.id), u.(deleted := true))
    ensures MarkedRow(tables, u.id).Keys == set c | c in Names(UsersColumns)
  {
    FlagEncodes(tables["users"].rows[u.id], u);
    MarkedKeys(tables, u.id);
  }

  /** Setting `deleted` to 1 in a row that decodes to a user encodes that
      user marked deleted. */
  lemma FlagEncodes(row: Row, u: User)
    requires FromRow(row) == Ok(u)
    ensures Encodes(row + map["deleted" := Integer(1)], u.(deleted := true))
  {
    FromRowSucceeds(row);
    var marked := row + map["deleted" := Integer(1)];
    assert marked["id"] == row["id"] && marked["name"] == row["name"];
    assert marked["email"] == row["email"] && marked["deleted"] == Integer(1);
  }

  lemma SoftDeleteStores(tables: Tables, run: ScriptRunner, u: User)
    requires UsersReady(tables) && u.id in tables["users"].rows
    requires FromRow(tables["users"].rows[u.id]) == Ok(u)
    ensures DeleteOutcome(true, tables, run, UserEntity, u.id, true) == (Ok(Unit), WithRow(tables, u.id, MarkedRow(tables, u.id)))
  {
    var t := tables["users"];
    var flag := map["deleted" := Integer(1)];
    var marked := MarkedRow(tables, u.id);
    MarkedEncodes(tables, u);
    SoftDeletePrepares(tables, u.id);
    ExecutedSoftDelete(tables, run, "users", [TextArg(u.id)]);
    EncodedFits(marked, u.(deleted := true));
    RemoveThenStore(t.rows, u.id, marked);
    assert UpdateRow(t, flag, TextArg(u.id)) == Ok((1, t.(rows := t.rows[u.id := marked])));
  }

  /** A logical delete of a stored user sets its `deleted` column to 1 and
      touches nothing else; fetching the id gives the same user, marked
      deleted. */
  lemma SoftDeleteThenFetch(tables: Tables, run: ScriptRunner, u: User)
    requires UsersReady(tables) && u.id in tables["users"].rows
    requires FromRow(tables["users"].rows[u.id]) == Ok(u)
    ensures DeleteOutcome(true, tables, run, UserEntity, u.id, true) == (Ok(Unit), WithRow(tables, u.id, MarkedRow(tables, u.id)))
    ensures UsersReady(WithRow(tables, u.id, MarkedRow(tables, u.id)))
    ensures FetchOutcome(true, WithRow(tables, u.id, MarkedRow(tables, u.id)), UserEntity, u.id) == Ok(Some(u.(deleted := true)))
  {
    SoftDeleteStores(tables, run, u);
    MarkedEncodes(tables, u);
    StoredFetches(tables, u.(deleted := true), MarkedRow(tables, u.id));
  }

  /** The repository test's lifecycle on a fresh store holding an empty
      `users` table: create Alice, fetch her, rename her, fetch again,
      delete her logically, fetch (still there, marked deleted), delete her
      physically, fetch (gone). Every step succeeds. */
  method RepositoryTest(run: ScriptRunner)
      returns (created: Result<Option<User>, DbError>, renamed: Result<Option<User>, DbError>,
               marked: Result<Option<User>, DbError>, removed: Result<Option<User>, DbError>)
    ensures created == Ok(Some(User("1", "Alice", "alice@example.com", false)))
    ensures renamed == Ok(Some(User("1", "Alice Updated", "alice@example.com", false)))
    ensures marked == Ok(Some(User("1", "Alice Updated", "alice@example.com", true)))
    ensures removed == Ok(None)
  {
    var db := new Database(true, map["users" := UsersTable()], run);
    var repo := new Repository(db, UserEntity);
    var user := NewUser("1", "Alice", "alice@example.com");
    created := CreateStep(repo, user);
    var updatedUser := user.(name := "Alice Updated");
    renamed := UpdateStep(repo, updatedUser);
    marked := SoftDeleteStep(repo, updatedUser);
    removed := HardDeleteStep(repo, "1");
  }

  /** The test's first step: `create` succeeds and `fetch` returns the user. */
  method CreateStep(repo: Repository<User>, u: User) returns (fetched: Result<Option<User>, DbError>)
    requires repo.kind == UserEntity && repo.db.online
    requires UsersReady(repo.db.tables) && u.id !in repo.db.tables["users"].rows
    modifies repo.db
    ensures repo.db.online && UsersReady(repo.db.tables) && u.id in repo.db.tables["users"].rows
    ensures fetched == Ok(Some(u))
  {
    CreateThenFetch(repo.db.tables, repo.db.run, u);
    var r := repo.Create(u);
    assert r == Ok(Unit);
    fetched := repo.Fetch(u.id);
  }

  /** The test's second step: `update` succeeds and `fetch` returns the new
      values, which the stored row now decodes to. */
  method UpdateStep(repo: Repository<User>, u: User) returns (fetched: Result<Option<User>, DbError>)
    requires repo.kind == UserEntity && repo.db.online
    requires UsersReady(repo.db.tables) && u.id in repo.db.tables["users"].rows
    modifies repo.db
    ensures repo.db.online && UsersReady(repo.db.tables) && u.id in repo.db.tables["users"].rows
    ensures FromRow(repo.db.tables["users"].rows[u.id]) == Ok(u)
    ensures fetched == Ok(Some(u))
  {
    UpdateThenFetch(repo.db.tables, repo.db.run, u);
    var r := repo.Update(u);
    assert r == Ok(Unit);
    fetched := repo.Fetch(u.id);
    UsersKeyed(repo.db.tables);
    FetchPresent(repo.db.tables, UserEntity, u.id);
  }

  /** The test's third step: a logical delete succeeds and `fetch` still
      returns the user, now marked deleted. */
  method SoftDeleteStep(repo: Repository<User>, u: User) returns (fetched: Result<Option<User>, DbError>)
    requires repo.kind == UserEntity && repo.db.online
    requires UsersReady(repo.db.tables) && u.id in repo.db.tables["users"].rows
    requires FromRow(repo.db.tables["users"].rows[u.id]) == Ok(u)
    modifies repo.db
    ensures repo.db.online && UsersReady(repo.db.tables)
    ensures fetched == Ok(Some(u.(deleted := true)))
  {
    SoftDeleteThenFetch(repo.db.tables, repo.db.run, u);
    var r := repo.Delete(u.id, true);
    assert r == Ok(Unit);
    fetched := repo.Fetch(u.id);
  }

  /** The test's last step: a physical delete succeeds and `fetch` finds
      nothing. */
  method HardDeleteStep(repo: Repository<User>, id: string) returns (fetched: Result<Option<User>, DbError>)
    requires repo.kind == UserEntity && repo.db.online && UsersReady(repo.db.tables)
    modifies repo.db
    ensures fetched == Ok(None)
  {
    UsersKeyed(repo.db.tables);
    HardDeleteThenFetch(repo.db.tables, repo.db.run, UserEntity, id);
    var r := repo.Delete(id, false);
    assert r == Ok(Unit);
    fetched := repo.Fetch(id);
  }
}
