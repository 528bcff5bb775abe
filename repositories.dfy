/** The generic repository (`Repository<T>` and its `CRUD<T>` operations):
    it builds each statement's text from the entity's table name and column
    names, binds the entity's values in column order, and runs the statement
    on the shared store. */
module Repositories {
  import opened Wrappers
  import opened Text
  import opened Bindable
  import opened Store
  import opened Entity

  /** `Result<(), E>` from the store's `Result<rows affected, E>`. */
  function Done(r: Result<nat, DbError>): (d: Result<Unit, DbError>)
    ensures d.Ok? <==> r.Ok?
    ensures r.Err? ==> d == Err(r.error)
  {
    match r
    case Ok(_) => Ok(Unit)
    case Err(e) => Err(e)
  }

  // ---------------------------------------------------------------------
  // What each operation sends and what it leaves behind

  /** `create`'s statement: `INSERT INTO t (c1, ...) VALUES (?1, ...)`. */
  function CreateStatement<T>(kind: EntityKind<T>, entity: T): (stmt: Statement)
    ensures ParamCount(stmt) == |BoundArgs(kind.toValues(entity))|
  {
    Insert(kind.tableName, ColumnNames(kind.toValues(entity)))
  }

  /** `update`'s statement: `UPDATE t SET c1 = ?1, ... WHERE id = ?n+1`. */
  function UpdateStatement<T>(kind: EntityKind<T>, entity: T): (stmt: Statement)
    ensures ParamCount(stmt) == |UpdateArgs(kind, entity)|
  {
    UpdateById(kind.tableName, ColumnNames(kind.toValues(entity)))
  }

  /** `delete`'s statement: a soft delete sets `deleted = 1`, a hard one
      removes the row. */
  function DeleteStatement<T>(kind: EntityKind<T>, logical: bool): (stmt: Statement)
    ensures ParamCount(stmt) == 1
  {
    if logical then SoftDeleteById(kind.tableName) else DeleteById(kind.tableName)
  }

  /** `update`'s arguments: the entity's values, then its id. */
  function UpdateArgs<T>(kind: EntityKind<T>, entity: T): (args: seq<Arg>)
    ensures |args| == |kind.toValues(entity)| + 1
    ensures args[..|args| - 1] == BoundArgs(kind.toValues(entity))
    ensures args[|args| - 1] == TextArg(kind.id(entity))
  {
    BoundArgs(kind.toValues(entity)) + [TextArg(kind.id(entity))]
  }

  function CreateOutcome<T>(online: bool, tables: Tables, run: ScriptRunner, kind: EntityKind<T>, entity: T): (Result<Unit, DbError>, Tables)
  {
    var out := Executed(online, tables, run, CreateStatement(kind, entity), BoundArgs(kind.toValues(entity)));
    (Done(out.0), out.1)
  }

  function FetchOutcome<T>(online: bool, tables: Tables, kind: EntityKind<T>, id: string): Result<Option<T>, DbError>
  {
    match Fetched(online, tables, SelectById(kind.tableName), [TextArg(id)])
    case Err(e) => Err(e)
    case Ok(None) => Ok(None)
    case Ok(Some(row)) =>
      match kind.fromRow(row)
      case Ok(entity) => Ok(Some(entity))
      case Err(e) => Err(e)
  }

  function UpdateOutcome<T>(online: bool, tables: Tables, run: ScriptRunner, kind: EntityKind<T>, entity: T): (Result<Unit, DbError>, Tables)
  {
    var out := Executed(online, tables, run, UpdateStatement(kind, entity), UpdateArgs(kind, entity));
    (Done(out.0), out.1)
  }

  function DeleteOutcome<T>(online: bool, tables: Tables, run: ScriptRunner, kind: EntityKind<T>, id: string, logical: bool): (Result<Unit, DbError>, Tables)
  {
    var out := Executed(online, tables, run, DeleteStatement(kind, logical), [TextArg(id)]);
    (Done(out.0), out.1)
  }

  // ---------------------------------------------------------------------
  // The repository object

  /** A repository of entities of one kind over a shared store. */
  class Repository<T> {
    const db: Database
    const kind: EntityKind<T>

    constructor (db: Database, kind: EntityKind<T>)
      ensures this.db == db && this.kind == kind
    {
      this.db := db;
      this.kind := kind;
    }

    /** `bind_values`: appends each value's argument to the query's, in
        column order; the column names themselves are not bound. Binding
        cannot fail, so the source's always-`Ok` result is dropped. */
    method BindValues(query: seq<Arg>, values: seq<Column>) returns (r: seq<Arg>)
      ensures r == query + BoundArgs(values)
    {
      var bound := query;
      var i := 0;
      while i < |values|
        invariant 0 <= i <= |values|
        invariant bound == query + BoundArgs(values[..i])
      {
        assert BoundArgs(values[..i + 1]) == BoundArgs(values[..i]) + [ToArg(values[i].value)];
        bound := Bind(bound, values[i].value);
        i := i + 1;
      }
      assert values[..i] == values;
      r := bound;
    }

    /** `create`: inserts the entity's row. */
    method Create(entity: T) returns (r: Result<Unit, DbError>)
      modifies db
      ensures db.online == old(db.online)
      ensures (r, db.tables) == CreateOutcome(old(db.online), old(db.tables), db.run, kind, entity)
    {
      var values := kind.toValues(entity);
      var columns := ColumnNames(values);
      var stmt := Insert(kind.tableName, columns);
      var args := BindValues([], values);
      assert args == BoundArgs(values) && stmt == CreateStatement(kind, entity);
      var affected := db.Execute(stmt, args);
      r := Done(affected);
    }

    /** `fetch`: the entity stored under `id`, if any, decoded from its row. */
    method Fetch(id: string) returns (r: Result<Option<T>, DbError>)
      ensures r == FetchOutcome(db.online, db.tables, kind, id)
    {
      var row :- db.FetchOptional(SelectById(kind.tableName), [TextArg(id)]);
      match row
      case None => r := Ok(None);
      case Some(cells) =>
        var entity :- kind.fromRow(cells);
        r := Ok(Some(entity));
    }

    /** `update`: overwrites every column of the row whose id is the entity's. */
    method Update(entity: T) returns (r: Result<Unit, DbError>)
      modifies db
      ensures db.online == old(db.online)
      ensures (r, db.tables) == UpdateOutcome(old(db.online), old(db.tables), db.run, kind, entity)
    {
      var values := kind.toValues(entity);
      var columns := ColumnNames(values);
      var stmt := UpdateById(kind.tableName, columns);
      var args := BindValues([], values);
      args := args + [TextArg(kind.id(entity))];
      assert args == UpdateArgs(kind, entity) && stmt == UpdateStatement(kind, entity);
      var affected := db.Execute(stmt, args);
      r := Done(affected);
    }

    /** `delete`: a logical delete marks the row, a physical one removes it. */
    method Delete(id: string, logical: bool) returns (r: Result<Unit, DbError>)
      modifies db
      ensures db.online == old(db.online)
      ensures (r, db.tables) == DeleteOutcome(old(db.online), old(db.tables), db.run, kind, id, logical)
    {
      var stmt := if logical then SoftDeleteById(kind.tableName) else DeleteById(kind.tableName);
      var affected := db.Execute(stmt, [TextArg(id)]);
      r := Done(affected);
    }
  }

  // ---------------------------------------------------------------------
  // Statement text: the i-th bound argument fills parameter i

  lemma {:induction false} NamesParse(names: seq<string>)
    requires FirstBadName(names).None?
    ensures forall i :: 0 <= i < |names| ==> '?' !in names[i]
  {
    forall i | 0 <= i < |names| ensures '?' !in names[i] {
      IdentifierHasNoParam(names[i]);
    }
  }

  lemma SplicedParse(t: string, cols: seq<string>)
    requires FirstBadName([t] + cols).None?
    ensures '?' !in t && forall i :: 0 <= i < |cols| ==> '?' !in cols[i]
  {
    NamesParse([t] + cols);
    assert ([t] + cols)[0] == t;
    assert forall i :: 0 <= i < |cols| ==> ([t] + cols)[i + 1] == cols[i];
  }

  /** `create`'s text asks for parameters ?1 ... ?n, n the number of
      columns, in the order the values are bound. */
  lemma {:induction false} InsertParams(t: string, cols: seq<string>)
    requires SyntaxProblem(Insert(t, cols)).None?
    ensures Params(Sql(Insert(t, cols))) == Range(1, ParamCount(Insert(t, cols)))
  {
    var n := |cols|;
    SplicedParse(t, cols);
    JoinWithout(cols, ", ", '?');
    var prefix := "INSERT INTO " + t + " (" + Join(cols, ", ") + ") VALUES (";
    InsertWords();
    assert '?' !in prefix;
    var pre: seq<string> := seq(n, i => "");
    var tail := ")";
    assert Sql(Insert(t, cols)) == prefix + (Join(Numbered(pre, Range(1, n)), ", ") + tail);
    ParamsSkip(prefix, Join(Numbered(pre, Range(1, n)), ", ") + tail, 0);
    ParamsOfJoin(pre, Range(1, n), ", ", tail, 0);
    assert ParamsFrom(tail, MaxOf(0, Range(1, n))) == [];
  }

  /** The set clauses and the `WHERE` tail of `update` ask for ?1 ... ?n+1. */
  lemma UpdateClausesParams(cols: seq<string>)
    requires |cols| >= 1 && forall i :: 0 <= i < |cols| ==> '?' !in cols[i]
    ensures ParamsFrom(Join(SetClauses(cols), ", ") + (" WHERE id = ?" + Decimal(|cols| + 1)), 0)
         == Range(1, |cols| + 1)
  {
    var n := |cols|;
    TargetsParse(cols);
    WhereId(n + 1);
    ParamsOfNumberedList(SetClauses(cols), Targets(cols), ", ", " WHERE id = ", " WHERE id = ?" + Decimal(n + 1), n);
  }

  /** `c = ` has a '?' only if `c` has one. */
  lemma TargetsParse(cols: seq<string>)
    requires forall i :: 0 <= i < |cols| ==> '?' !in cols[i]
    ensures forall i :: 0 <= i < |cols| ==> '?' !in Targets(cols)[i]
  {
    assert '?' !in " = ";
  }

  /** The `WHERE` tail of `update` is '?'-free text and then ?k. */
  lemma WhereId(k: nat)
    ensures " WHERE id = ?" + Decimal(k) == " WHERE id = " + "?" + Decimal(k)
    ensures '?' !in " WHERE id = " && !IsDigit(" WHERE id = "[0])
  {
  }

  /** `update`'s text asks for ?1 ... ?n for the columns and ?n+1 for the
      id, the order in which the values and then the id are bound. */
  lemma {:induction false} UpdateParams(t: string, cols: seq<string>)
    requires SyntaxProblem(UpdateById(t, cols)).None?
    ensures Params(Sql(UpdateById(t, cols))) == Range(1, ParamCount(UpdateById(t, cols)))
  {
    SplicedParse(t, cols);
    var prefix := "UPDATE " + t + " SET ";
    var rest := Join(SetClauses(cols), ", ") + (" WHERE id = ?" + Decimal(|cols| + 1));
    UpdateText(t, cols);
    UpdatePrefixWords(t);
    ParamsSkip(prefix, rest, 0);
    UpdateClausesParams(cols);
  }

  lemma UpdateText(t: string, cols: seq<string>)
    ensures Sql(UpdateById(t, cols))
         == ("UPDATE " + t + " SET ") + (Join(SetClauses(cols), ", ") + (" WHERE id = ?" + Decimal(|cols| + 1)))
  {
    var prefix := "UPDATE " + t + " SET ";
    var clauses := Join(SetClauses(cols), ", ");
    var key := Decimal(|cols| + 1);
    assert Sql(UpdateById(t, cols)) == prefix + clauses + " WHERE id = ?" + key;
    Associative(prefix + clauses, " WHERE id = ?", key);
    Associative(prefix, clauses, " WHERE id = ?" + key);
  }

  lemma Associative(a: string, b: string, c: string)
    ensures a + b + c == a + (b + c)
  {
  }

  lemma UpdatePrefixWords(t: string)
    requires '?' !in t
    ensures '?' !in "UPDATE " + t + " SET "
  {
  }

  lemma InsertWords()
    ensures '?' !in "INSERT INTO " && '?' !in " (" && '?' !in ") VALUES ("
  {
  }

  lemma KeyedWords()
    ensures '?' !in "SELECT * FROM " && '?' !in "DELETE FROM " && '?' !in "UPDATE "
    ensures '?' !in " WHERE id = " && '?' !in " SET deleted = 1"
  {
  }

  /** `fetch`'s and `delete`'s texts ask for the one id parameter. */
  lemma KeyedParams(stmt: Statement)
    requires stmt.SelectById? || stmt.SoftDeleteById? || stmt.DeleteById?
    requires SyntaxProblem(stmt).None?
    ensures Params(Sql(stmt)) == Range(1, ParamCount(stmt))
  {
    var t := stmt.table;
    NamesParse([t]);
    assert '?' !in t by { assert [t][0] == t; }
    var prefix := match stmt
      case SelectById(_) => "SELECT * FROM " + t + " WHERE id = "
      case SoftDeleteById(_) => "UPDATE " + t + " SET deleted = 1 WHERE id = "
      case DeleteById(_) => "DELETE FROM " + t + " WHERE id = ";
    KeyedWords();
    assert '?' !in prefix;
    assert Sql(stmt) == prefix + ("?" + "");
    ParamsSkip(prefix, "?" + "", 0);
    ParamsBare("", 0);
  }

  // ---------------------------------------------------------------------
  // What the operations do, for any entity kind

  /** A table the keyed statements can run against: it exists, its name
      parses, and it has an `id` column. */
  predicate Keyed(tables: Tables, t: string)
  {
    t in tables && IsIdentifier(t) && "id" in Names(tables[t].columns)
  }

  lemma KeyedPrepares(tables: Tables, stmt: Statement, id: string)
    requires stmt.SelectById? || stmt.DeleteById?
    requires Keyed(tables, stmt.table)
    ensures PrepareError(tables, stmt, [TextArg(id)]).None?
  {
    assert FirstBadName([stmt.table]).None?;
  }

  /** With the backend unreachable every operation fails with the connection
      error and changes nothing. */
  lemma OfflineFails<T>(tables: Tables, run: ScriptRunner, kind: EntityKind<T>, entity: T, id: string, logical: bool)
    ensures CreateOutcome(false, tables, run, kind, entity) == (Err(ConnectionFailed), tables)
    ensures FetchOutcome(false, tables, kind, id) == Err(ConnectionFailed)
    ensures UpdateOutcome(false, tables, run, kind, entity) == (Err(ConnectionFailed), tables)
    ensures DeleteOutcome(false, tables, run, kind, id, logical) == (Err(ConnectionFailed), tables)
  {
  }

  /** Fetching an id with no row is not an error: it yields `None`. */
  lemma FetchMissing<T>(tables: Tables, kind: EntityKind<T>, id: string)
    requires Keyed(tables, kind.tableName) && id !in tables[kind.tableName].rows
    ensures FetchOutcome(true, tables, kind, id) == Ok(None)
  {
    KeyedPrepares(tables, SelectById(kind.tableName), id);
  }

  /** Fetching an id with a row yields what the kind's decoder makes of it. */
  lemma FetchPresent<T>(tables: Tables, kind: EntityKind<T>, id: string)
    requires Keyed(tables, kind.tableName) && id in tables[kind.tableName].rows
    ensures var decoded := kind.fromRow(tables[kind.tableName].rows[id]);
      FetchOutcome(true, tables, kind, id) == if decoded.Ok? then Ok(Some(decoded.value)) else Err(decoded.error)
  {
    KeyedPrepares(tables, SelectById(kind.tableName), id);
  }

  /** A physical delete removes the row under `id`, if any, and nothing
      else; the id then fetches as `None`. Deleting a missing id succeeds. */
  lemma HardDeleteThenFetch<T>(tables: Tables, run: ScriptRunner, kind: EntityKind<T>, id: string)
    requires Keyed(tables, kind.tableName)
    ensures var t := kind.tableName;
      DeleteOutcome(true, tables, run, kind, id, false) == (Ok(Unit), tables[t := tables[t].(rows := tables[t].rows - {id})])
    ensures FetchOutcome(true, DeleteOutcome(true, tables, run, kind, id, false).1, kind, id) == Ok(None)
  {
    var t := kind.tableName;
    KeyedPrepares(tables, DeleteById(t), id);
    var after := tables[t := tables[t].(rows := tables[t].rows - {id})];
    if id !in tables[t].rows {
      assert tables[t].rows - {id} == tables[t].rows;
    }
    assert DeleteOutcome(true, tables, run, kind, id, false) == (Ok(Unit), after);
    assert Names(after[t].columns) == Names(tables[t].columns);
    FetchMissing(after, kind, id);
  }

  /** A logical delete on a table without a `deleted` column is refused
      before it runs and changes nothing. */
  lemma SoftDeleteNeedsFlag<T>(tables: Tables, run: ScriptRunner, kind: EntityKind<T>, id: string)
    requires kind.tableName in tables && IsIdentifier(kind.tableName)
    requires "deleted" !in Names(tables[kind.tableName].columns)
    ensures DeleteOutcome(true, tables, run, kind, id, true) == (Err(NoSuchColumn("deleted")), tables)
  {
    assert FirstBadName([kind.tableName]).None?;
    assert ["deleted", "id"][0] == "deleted";
  }

  /** Updating an entity whose id has no row succeeds and changes nothing,
      as an `UPDATE` that matches no row does. */
  lemma UpdateMissingIsNoOp<T>(tables: Tables, run: ScriptRunner, kind: EntityKind<T>, entity: T)
    requires PrepareError(tables, UpdateStatement(kind, entity), UpdateArgs(kind, entity)).None?
    requires kind.id(entity) !in tables[kind.tableName].rows
    ensures UpdateOutcome(true, tables, run, kind, entity) == (Ok(Unit), tables)
  {
    var t := kind.tableName;
    var cols := ColumnNames(kind.toValues(entity));
    var args := UpdateArgs(kind, entity);
    var key := TextArg(kind.id(entity));
    assert args[|cols|] == key;
    var updates := Assign(cols, Cells(args[..|cols|]));
    assert UpdateRow(tables[t], updates, key) == Ok((0, tables[t]));
    assert Executed(true, tables, run, UpdateById(t, cols), args) == (Ok(0), tables[t := tables[t]]);
    assert tables[t := tables[t]] == tables;
  }

  /** Every repository operation keeps every table well formed. */
  lemma OperationsKeepInv<T>(online: bool, tables: Tables, run: ScriptRunner, kind: EntityKind<T>, entity: T, id: string, logical: bool)
    requires TablesInv(tables)
    ensures TablesInv(CreateOutcome(online, tables, run, kind, entity).1)
    ensures TablesInv(UpdateOutcome(online, tables, run, kind, entity).1)
    ensures TablesInv(DeleteOutcome(online, tables, run, kind, id, logical).1)
  {
    ExecutedKeepsInv(online, tables, run, CreateStatement(kind, entity), BoundArgs(kind.toValues(entity)));
    ExecutedKeepsInv(online, tables, run, UpdateStatement(kind, entity), UpdateArgs(kind, entity));
    ExecutedKeepsInv(online, tables, run, DeleteStatement(kind, logical), [TextArg(id)]);
  }
}
