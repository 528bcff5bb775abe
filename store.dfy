/** An abstract SQLite store standing in for the connection pool
    (`Pool<Sqlite>` in the repository, `Pool<Any>` in the migration and
    schema code): a catalog of tables, each holding rows keyed by their text
    primary key `id`, and the effect of every statement shape the
    data-access layer issues. Statements arrive as `Statement` values whose
    exact text is `Sql(stmt)`, together with their bound arguments. Migration
    scripts are opaque: a `ScriptRunner` oracle gives their effect. */
module Store {
  import opened Wrappers
  import opened Text
  import opened Bindable

  /** A stored SQLite value. */
  datatype Cell = Null | Integer(n: int) | TextCell(text: string)

  /** A row, by column name. */
  type Row = map<string, Cell>

  datatype ColumnDef = ColumnDef(name: string, notNull: bool, default: Cell)

  /** A table: the definition text `sqlite_master` keeps for it (NULL
      possible), its columns, and its rows keyed by `id`. */
  datatype Table = Table(sql: Option<string>, columns: seq<ColumnDef>, rows: map<string, Row>)

  type Tables = map<string, Table>

  /** The errors the driver reports (`sqlx::Error`), as far as the model
      distinguishes them. */
  datatype DbError =
    | ConnectionFailed
    | SyntaxError(near: string)
    | NoSuchTable(table: string)
    | NoSuchColumn(column: string)
    | NotNullViolated(column: string)
    | UniqueViolated(column: string)
    | BindCountMismatch(expected: nat, given: nat)
    | KeyNotText
    | RowNotFound
    | ColumnNotFound(column: string)
    | ColumnDecode(column: string)
    | Io(path: string)
    | ScriptFailed(reason: string)

  /** What running a migration script's text does: SQLite runs its
      statements one after another, so the result is the tables after the
      statements that ran, together with the error of the statement that
      failed, if one did. The statements before a failing one stay applied. */
  type ScriptRunner = (Tables, string) -> (Option<DbError>, Tables)

  /** The statements the data-access layer sends to the store. */
  datatype Statement =
    | Insert(table: string, columns: seq<string>)
    | SelectById(table: string)
    | UpdateById(table: string, columns: seq<string>)
    | SoftDeleteById(table: string)
    | DeleteById(table: string)
    | CreateFallback(table: string)
    | SchemaLookup
    | Script(text: string)

  // ---------------------------------------------------------------------
  // Statement text

  /** `?1, ?2, ..., ?n` before joining. */
  function Placeholders(n: nat): (ps: seq<string>)
    ensures |ps| == n
  {
    Numbered(seq(n, i => ""), Range(1, n))
  }

  /** `c1 = ?1, ..., cn = ?n` before joining. */
  function SetClauses(cols: seq<string>): (cs: seq<string>)
    ensures |cs| == |cols|
  {
    Numbered(Targets(cols), Range(1, |cols|))
  }

  /** `c1 = `, ..., `cn = `: each set clause up to its placeholder. */
  function Targets(cols: seq<string>): (ts: seq<string>)
    ensures |ts| == |cols| && forall i :: 0 <= i < |cols| ==> ts[i] == cols[i] + " = "
  {
    seq(|cols|, i requires 0 <= i < |cols| => cols[i] + " = ")
  }

  const FallbackColumnsText: string := " (id TEXT PRIMARY KEY, name TEXT)"
  const SchemaSelect: string := "SELECT sql FROM sqlite_master "
  const SchemaFilter: string := "WHERE type='table' AND name = "
  const SchemaQueryText: string := SchemaSelect + SchemaFilter + "?"

  /** The exact text of a statement: names are spliced in without quoting. */
  function Sql(stmt: Statement): string
  {
    match stmt
    case Insert(t, cols) =>
      "INSERT INTO " + t + " (" + Join(cols, ", ") + ") VALUES (" + Join(Placeholders(|cols|), ", ") + ")"
    case SelectById(t) => "SELECT * FROM " + t + " WHERE id = ?"
    case UpdateById(t, cols) =>
      "UPDATE " + t + " SET " + Join(SetClauses(cols), ", ") + " WHERE id = ?" + Decimal(|cols| + 1)
    case SoftDeleteById(t) => "UPDATE " + t + " SET deleted = 1 WHERE id = ?"
    case DeleteById(t) => "DELETE FROM " + t + " WHERE id = ?"
    case CreateFallback(t) => "CREATE TABLE IF NOT EXISTS " + t + FallbackColumnsText
    case SchemaLookup => SchemaQueryText
    case Script(text) => text
  }

  /** How many arguments the statement's text asks for. */
  function ParamCount(stmt: Statement): nat
  {
    match stmt
    case Insert(_, cols) => |cols|
    case UpdateById(_, cols) => |cols| + 1
    case CreateFallback(_) => 0
    case Script(_) => 0
    case _ => 1
  }

  // ---------------------------------------------------------------------
  // Names

  predicate IsIdentStart(c: char) { ('a' <= c <= 'z') || ('A' <= c <= 'Z') || c == '_' }
  predicate IsIdentChar(c: char) { IsIdentStart(c) || IsDigit(c) }

  /** A name SQLite reads as a bare identifier (keywords aside). */
  predicate IsIdentifier(s: string)
  {
    |s| > 0 && IsIdentStart(s[0]) && forall i :: 0 < i < |s| ==> IsIdentChar(s[i])
  }

  /** An identifier holds no parameter marker. */
  lemma IdentifierHasNoParam(s: string)
    requires IsIdentifier(s)
    ensures '?' !in s
  {
    forall i | 0 <= i < |s| ensures s[i] != '?' {
      if i > 0 {
        assert IsIdentChar(s[i]);
      }
    }
  }

  /** The names a statement splices into its text. */
  function SplicedNames(stmt: Statement): seq<string>
  {
    match stmt
    case Insert(t, cols) => [t] + cols
    case UpdateById(t, cols) => [t] + cols
    case SelectById(t) => [t]
    case SoftDeleteById(t) => [t]
    case DeleteById(t) => [t]
    case CreateFallback(t) => [t]
    case _ => []
  }

  /** The first spliced name that breaks the statement's syntax, if any. */
  function FirstBadName(names: seq<string>): (r: Option<string>)
    ensures r.None? <==> forall i :: 0 <= i < |names| ==> IsIdentifier(names[i])
    ensures r.Some? ==> r.value in names && !IsIdentifier(r.value)
  {
    if names == [] then None
    else if !IsIdentifier(names[0]) then Some(names[0])
    else FirstBadName(names[1..])
  }

  /** Why SQLite would refuse to parse the statement's text, if it would. */
  function SyntaxProblem(stmt: Statement): Option<string>
  {
    match FirstBadName(SplicedNames(stmt))
    case Some(n) => Some(n)
    case None =>
      if (stmt.Insert? || stmt.UpdateById?) && stmt.columns == [] then Some(")") else None
  }

  // ---------------------------------------------------------------------
  // Tables and rows

  function Names(defs: seq<ColumnDef>): (ns: seq<string>)
    ensures |ns| == |defs| && forall i :: 0 <= i < |defs| ==> ns[i] == defs[i].name
  {
    if defs == [] then [] else [defs[0].name] + Names(defs[1..])
  }

  /** The default of the first column named `c`. */
  function DefaultOf(defs: seq<ColumnDef>, c: string): Cell
  {
    if defs == [] then Null else if defs[0].name == c then defs[0].default else DefaultOf(defs[1..], c)
  }

  /** The first of `cols` that is not a column of the table. */
  function FirstUnknown(cols: seq<string>, names: seq<string>): (r: Option<string>)
    ensures r.None? <==> forall i :: 0 <= i < |cols| ==> cols[i] in names
    ensures r.Some? ==> r.value in cols && r.value !in names
  {
    if cols == [] then None
    else if cols[0] !in names then Some(cols[0])
    else FirstUnknown(cols[1..], names)
  }

  function CellOf(a: Arg): Cell
  {
    match a
    case IntArg(n) => Integer(n)
    case Int64Arg(n) => Integer(n)
    case TextArg(s) => TextCell(s)
  }

  function Cells(args: seq<Arg>): (cs: seq<Cell>)
    ensures |cs| == |args| && forall i :: 0 <= i < |args| ==> cs[i] == CellOf(args[i])
  {
    seq(|args|, i requires 0 <= i < |args| => CellOf(args[i]))
  }

  /** The assignments `cols[i] := cells[i]`; when a column is named twice the
      rightmost assignment wins. */
  function Assign(cols: seq<string>, cells: seq<Cell>): (m: map<string, Cell>)
    requires |cols| == |cells|
    ensures m.Keys == set c | c in cols
    decreases |cols|
  {
    if cols == [] then map[]
    else Assign(cols[..|cols| - 1], cells[..|cells| - 1])[cols[|cols| - 1] := cells[|cells| - 1]]
  }

  /** With distinct columns every column gets its own cell. */
  lemma AssignLookup(cols: seq<string>, cells: seq<Cell>)
    requires |cols| == |cells| && Distinct(cols)
    ensures forall i :: 0 <= i < |cols| ==> Assign(cols, cells)[cols[i]] == cells[i]
  {
    forall i | 0 <= i < |cols| ensures Assign(cols, cells)[cols[i]] == cells[i] {
      AssignAt(cols, cells, i);
    }
  }

  lemma {:induction false} AssignAt(cols: seq<string>, cells: seq<Cell>, i: nat)
    requires |cols| == |cells| && Distinct(cols) && i < |cols|
    ensures Assign(cols, cells)[cols[i]] == cells[i]
    decreases |cols|
  {
    var n := |cols| - 1;
    if i < n {
      var front, values := cols[..n], cells[..n];
      assert Distinct(front) by {
        forall j, k | 0 <= j < k < n ensures front[j] != front[k] {
          assert front[j] == cols[j] && front[k] == cols[k];
        }
      }
      AssignAt(front, values, i);
      assert front[i] == cols[i] != cols[n];
      assert values[i] == cells[i];
    }
  }

  /** The first NOT NULL column that the row leaves NULL. */
  function NullViolation(defs: seq<ColumnDef>, row: Row): (r: Option<string>)
    ensures r.None? <==> forall i :: 0 <= i < |defs| ==> !(defs[i].notNull && defs[i].name in row && row[defs[i].name] == Null)
  {
    if defs == [] then None
    else if defs[0].notNull && defs[0].name in row && row[defs[0].name] == Null then Some(defs[0].name)
    else NullViolation(defs[1..], row)
  }

  /** The primary key of a row: its `id` cell, which must be text. */
  function KeyOf(row: Row): Option<string>
  {
    if "id" in row && row["id"].TextCell? then Some(row["id"].text) else None
  }

  /** The row an INSERT builds: each column gets its updates cell or its default. */
  function NewRow(defs: seq<ColumnDef>, updates: map<string, Cell>): (row: Row)
    ensures row.Keys == set c | c in Names(defs)
  {
    map c | c in Names(defs) :: if c in updates then updates[c] else DefaultOf(defs, c)
  }

  /** Storing a finished row under its key; shared by INSERT and UPDATE. */
  function Put(t: Table, row: Row, replacing: Option<string>): Result<Table, DbError>
  {
    match NullViolation(t.columns, row)
    case Some(c) => Err(NotNullViolated(c))
    case None =>
      match KeyOf(row)
      case None => Err(KeyNotText)
      case Some(k) =>
        if k in t.rows && Some(k) != replacing then Err(UniqueViolated("id"))
        else
          var rest := if replacing.Some? then t.rows - {replacing.value} else t.rows;
          Ok(t.(rows := rest[k := row]))
  }

  /** `INSERT INTO t (cols) VALUES (?1, ...)`, once names and counts are checked. */
  function InsertRow(t: Table, cols: seq<string>, args: seq<Arg>): Result<Table, DbError>
    requires |cols| == |args|
  {
    Put(t, NewRow(t.columns, Assign(cols, Cells(args))), None)
  }

  /** `UPDATE t SET cols WHERE id = key`: no matching row means no change. */
  function UpdateRow(t: Table, updates: map<string, Cell>, key: Arg): Result<(nat, Table), DbError>
  {
    if !key.TextArg? || key.chars !in t.rows then Ok((0, t))
    else
      match Put(t, t.rows[key.chars] + updates, Some(key.chars))
      case Ok(t') => Ok((1, t'))
      case Err(e) => Err(e)
  }

  function DeleteRow(t: Table, key: Arg): (nat, Table)
  {
    if key.TextArg? && key.chars in t.rows then (1, t.(rows := t.rows - {key.chars})) else (0, t)
  }

  /** The table `CREATE TABLE IF NOT EXISTS t (id TEXT PRIMARY KEY, name TEXT)`
      makes. `sqlite_master` keeps the statement without `IF NOT EXISTS`. */
  function FallbackTable(name: string): Table
  {
    Table(Some("CREATE TABLE " + name + FallbackColumnsText),
          [ColumnDef("id", false, Null), ColumnDef("name", false, Null)], map[])
  }

  /** The columns other than the updates ones that the statement's text names. */
  function ReferencedColumns(stmt: Statement): seq<string>
  {
    match stmt
    case Insert(_, cols) => cols
    case UpdateById(_, cols) => cols + ["id"]
    case SoftDeleteById(_) => ["deleted", "id"]
    case SelectById(_) => ["id"]
    case DeleteById(_) => ["id"]
    case _ => []
  }

  /** Why preparing and binding the statement fails, if it does: syntax, then
      the table, then its columns, then the number of arguments. */
  function PrepareError(tables: Tables, stmt: Statement, args: seq<Arg>): Option<DbError>
    requires !stmt.Script?
  {
    match SyntaxProblem(stmt)
    case Some(near) => Some(SyntaxError(near))
    case None =>
      if !stmt.SchemaLookup? && !stmt.CreateFallback? && stmt.table !in tables then Some(NoSuchTable(stmt.table))
      else
        var unknown := if stmt.SchemaLookup? || stmt.CreateFallback? then None
                       else FirstUnknown(ReferencedColumns(stmt), Names(tables[stmt.table].columns));
        if unknown.Some? then Some(NoSuchColumn(unknown.value))
        else if |args| != ParamCount(stmt) then Some(BindCountMismatch(ParamCount(stmt), |args|))
        else None
  }

  /** What a statement that prepared guarantees about its table, its
      columns and its arguments. */
  lemma PreparedFacts(tables: Tables, stmt: Statement, args: seq<Arg>)
    requires !stmt.Script? && PrepareError(tables, stmt, args).None?
    ensures SyntaxProblem(stmt).None?
    ensures |args| == ParamCount(stmt)
    ensures !stmt.SchemaLookup? && !stmt.CreateFallback? ==>
      && stmt.table in tables
      && FirstUnknown(ReferencedColumns(stmt), Names(tables[stmt.table].columns)).None?
  {
  }

  /** Conversely, a statement on a table prepares when its text parses, its
      table exists, every column it references exists and the argument
      count matches. */
  lemma PrepareOk(tables: Tables, stmt: Statement, args: seq<Arg>)
    requires !stmt.Script? && !stmt.SchemaLookup? && !stmt.CreateFallback?
    requires SyntaxProblem(stmt).None? && stmt.table in tables
    requires forall c :: c in ReferencedColumns(stmt) ==> c in Names(tables[stmt.table].columns)
    requires |args| == ParamCount(stmt)
    ensures PrepareError(tables, stmt, args).None?
  {
    var cols := ReferencedColumns(stmt);
    assert forall i :: 0 <= i < |cols| ==> cols[i] in cols;
  }

  /** The outcome of a row change on table `t`: a failure changes nothing. */
  function Commit(tables: Tables, t: string, r: Result<(nat, Table), DbError>): (Result<nat, DbError>, Tables)
  {
    match r
    case Ok((n, t')) => (Ok(n), tables[t := t'])
    case Err(e) => (Err(e), tables)
  }

  /** What a prepared statement does. */
  function Applied(tables: Tables, stmt: Statement, args: seq<Arg>): (Result<nat, DbError>, Tables)
    requires !stmt.Script? && PrepareError(tables, stmt, args).None?
  {
    PreparedFacts(tables, stmt, args);
    match stmt
    case CreateFallback(t) =>
      if t in tables then (Ok(0), tables) else (Ok(0), tables[t := FallbackTable(t)])
    case Insert(t, cols) =>
      Commit(tables, t, match InsertRow(tables[t], cols, args) case Ok(t') => Ok((1, t')) case Err(e) => Err(e))
    case UpdateById(t, cols) =>
      Commit(tables, t, UpdateRow(tables[t], Assign(cols, Cells(args[..|cols|])), args[|cols|]))
    case SoftDeleteById(t) =>
      Commit(tables, t, UpdateRow(tables[t], map["deleted" := Integer(1)], args[0]))
    case DeleteById(t) =>
      Commit(tables, t, Ok(DeleteRow(tables[t], args[0])))
    case SelectById(_) => (Ok(0), tables)
    case SchemaLookup => (Ok(0), tables)
  }

  /** The effect of `execute`: rows affected (or the error) and the new tables.
      A failed statement changes nothing; a failed script keeps the effect
      of its statements before the failing one. */
  function Executed(online: bool, tables: Tables, run: ScriptRunner, stmt: Statement, args: seq<Arg>): (Result<nat, DbError>, Tables)
  {
    if !online then (Err(ConnectionFailed), tables)
    else if stmt.Script? then
      var out := run(tables, stmt.text);
      match out.0
      case None => (Ok(0), out.1)
      case Some(e) => (Err(e), out.1)
    else
      match PrepareError(tables, stmt, args)
      case Some(e) => (Err(e), tables)
      case None => Applied(tables, stmt, args)
  }

  lemma RemoveThenStore(rows: map<string, Row>, k: string, row: Row)
    ensures (rows - {k})[k := row] == rows[k := row]
  {
    var a := (rows - {k})[k := row];
    var b := rows[k := row];
    assert a.Keys == b.Keys;
    forall j | j in a.Keys ensures a[j] == b[j] { }
  }

  /** The effect of a prepared INSERT, UPDATE or logical DELETE, one
      statement kind at a time. */
  lemma ExecutedInsert(tables: Tables, run: ScriptRunner, t: string, cols: seq<string>, args: seq<Arg>)
    requires PrepareError(tables, Insert(t, cols), args).None?
    ensures t in tables && |cols| == |args|
    ensures var r := InsertRow(tables[t], cols, args);
      Executed(true, tables, run, Insert(t, cols), args)
      == if r.Ok? then (Ok(1), tables[t := r.value]) else (Err(r.error), tables)
  {
    PreparedFacts(tables, Insert(t, cols), args);
  }

  lemma ExecutedUpdate(tables: Tables, run: ScriptRunner, t: string, cols: seq<string>, args: seq<Arg>)
    requires PrepareError(tables, UpdateById(t, cols), args).None?
    ensures t in tables && |args| == |cols| + 1
    ensures var r := UpdateRow(tables[t], Assign(cols, Cells(args[..|cols|])), args[|cols|]);
      Executed(true, tables, run, UpdateById(t, cols), args)
      == if r.Ok? then (Ok(r.value.0), tables[t := r.value.1]) else (Err(r.error), tables)
  {
    var stmt := UpdateById(t, cols);
    PreparedFacts(tables, stmt, args);
    ExecutedApplies(tables, run, stmt, args);
    var r := UpdateRow(tables[t], Assign(cols, Cells(args[..|cols|])), args[|cols|]);
    assert Applied(tables, stmt, args) == Commit(tables, t, r);
  }

  /** On a reachable backend, a statement that prepares does what `Applied` says. */
  lemma ExecutedApplies(tables: Tables, run: ScriptRunner, stmt: Statement, args: seq<Arg>)
    requires !stmt.Script? && PrepareError(tables, stmt, args).None?
    ensures Executed(true, tables, run, stmt, args) == Applied(tables, stmt, args)
  {
  }

  lemma ExecutedSoftDelete(tables: Tables, run: ScriptRunner, t: string, args: seq<Arg>)
    requires PrepareError(tables, SoftDeleteById(t), args).None?
    ensures t in tables && |args| == 1
    ensures var r := UpdateRow(tables[t], map["deleted" := Integer(1)], args[0]);
      Executed(true, tables, run, SoftDeleteById(t), args)
      == if r.Ok? then (Ok(r.value.0), tables[t := r.value.1]) else (Err(r.error), tables)
  {
    PreparedFacts(tables, SoftDeleteById(t), args);
  }

  function SqlCell(sql: Option<string>): Cell
  {
    match sql case Some(s) => TextCell(s) case None => Null
  }

  /** The rows of a query, at most one: `SELECT * ... WHERE id = ?` and the
      catalog lookup. Other statements return no row. */
  function Fetched(online: bool, tables: Tables, stmt: Statement, args: seq<Arg>): Result<Option<Row>, DbError>
  {
    if !online then Err(ConnectionFailed)
    else if stmt.Script? then Ok(None)
    else
      match PrepareError(tables, stmt, args)
      case Some(e) => Err(e)
      case None =>
        match stmt
        case SelectById(t) =>
          if args[0].TextArg? && args[0].chars in tables[t].rows
          then Ok(Some(tables[t].rows[args[0].chars])) else Ok(None)
        case SchemaLookup =>
          if args[0].TextArg? && args[0].chars in tables
          then Ok(Some(map["sql" := SqlCell(tables[args[0].chars].sql)])) else Ok(None)
        case _ => Ok(None)
  }

  /** `fetch_one`: no row is an error. */
  function OneRow(r: Result<Option<Row>, DbError>): Result<Row, DbError>
  {
    match r
    case Ok(Some(row)) => Ok(row)
    case Ok(None) => Err(RowNotFound)
    case Err(e) => Err(e)
  }

  // ---------------------------------------------------------------------
  // The store's invariant

  predicate Distinct(ns: seq<string>) { forall i, j :: 0 <= i < j < |ns| ==> ns[i] != ns[j] }

  /** A table as the model keeps it: distinct column names including `id`,
      and every row holding exactly those columns, stored under its own text
      `id` and respecting NOT NULL. */
  ghost predicate TableInv(t: Table)
  {
    && Distinct(Names(t.columns))
    && "id" in Names(t.columns)
    && forall k :: k in t.rows ==> RowFits(t, k, t.rows[k])
  }

  ghost predicate RowFits(t: Table, k: string, row: Row)
  {
    && row.Keys == (set c | c in Names(t.columns))
    && KeyOf(row) == Some(k)
    && NullViolation(t.columns, row).None?
  }

  ghost predicate TablesInv(tables: Tables)
  {
    forall n :: n in tables ==> TableInv(tables[n])
  }

  lemma PutKeepsInv(t: Table, row: Row, replacing: Option<string>)
    requires TableInv(t)
    requires row.Keys == (set c | c in Names(t.columns))
    requires replacing.Some? ==> replacing.value in t.rows
    ensures Put(t, row, replacing).Ok? ==> TableInv(Put(t, row, replacing).value)
  {
  }

  lemma UpdateKeepsInv(t: Table, updates: map<string, Cell>, key: Arg)
    requires TableInv(t)
    requires updates.Keys <= (set c | c in Names(t.columns))
    ensures UpdateRow(t, updates, key).Ok? ==> TableInv(UpdateRow(t, updates, key).value.1)
  {
    if key.TextArg? && key.chars in t.rows {
      PutKeepsInv(t, t.rows[key.chars] + updates, Some(key.chars));
    }
  }

  lemma FallbackInv(name: string)
    ensures TableInv(FallbackTable(name))
  {
    assert Names(FallbackTable(name).columns) == ["id", "name"];
  }

  lemma InsertKeepsInv(t: Table, cols: seq<string>, args: seq<Arg>)
    requires TableInv(t) && |cols| == |args|
    ensures InsertRow(t, cols, args).Ok? ==> TableInv(InsertRow(t, cols, args).value)
  {
    PutKeepsInv(t, NewRow(t.columns, Assign(cols, Cells(args))), None);
  }

  lemma ReplaceKeepsInv(tables: Tables, name: string, t: Table)
    requires TablesInv(tables) && TableInv(t)
    ensures TablesInv(tables[name := t])
  {
  }

  lemma InsertCaseKeepsInv(tables: Tables, run: ScriptRunner, t: string, cols: seq<string>, args: seq<Arg>)
    requires TablesInv(tables) && PrepareError(tables, Insert(t, cols), args).None?
    ensures TablesInv(Executed(true, tables, run, Insert(t, cols), args).1)
  {
    ExecutedInsert(tables, run, t, cols, args);
    InsertKeepsInv(tables[t], cols, args);
    var r := InsertRow(tables[t], cols, args);
    if r.Ok? { ReplaceKeepsInv(tables, t, r.value); }
  }

  lemma UpdateCaseKeepsInv(tables: Tables, run: ScriptRunner, t: string, cols: seq<string>, args: seq<Arg>)
    requires TablesInv(tables) && PrepareError(tables, UpdateById(t, cols), args).None?
    ensures TablesInv(Executed(true, tables, run, UpdateById(t, cols), args).1)
  {
    ExecutedUpdate(tables, run, t, cols, args);
    PreparedFacts(tables, UpdateById(t, cols), args);
    var names := Names(tables[t].columns);
    assert FirstUnknown(cols + ["id"], names).None?;
    assert forall i :: 0 <= i < |cols| ==> (cols + ["id"])[i] == cols[i];
    var updates := Assign(cols, Cells(args[..|cols|]));
    assert updates.Keys <= (set c | c in names);
    UpdateKeepsInv(tables[t], updates, args[|cols|]);
    var r := UpdateRow(tables[t], updates, args[|cols|]);
    if r.Ok? { ReplaceKeepsInv(tables, t, r.value.1); }
  }

  lemma SoftDeleteCaseKeepsInv(tables: Tables, run: ScriptRunner, t: string, args: seq<Arg>)
    requires TablesInv(tables) && PrepareError(tables, SoftDeleteById(t), args).None?
    ensures TablesInv(Executed(true, tables, run, SoftDeleteById(t), args).1)
  {
    ExecutedSoftDelete(tables, run, t, args);
    PreparedFacts(tables, SoftDeleteById(t), args);
    assert FirstUnknown(["deleted", "id"], Names(tables[t].columns)).None?;
    assert ["deleted", "id"][0] == "deleted";
    UpdateKeepsInv(tables[t], map["deleted" := Integer(1)], args[0]);
    var r := UpdateRow(tables[t], map["deleted" := Integer(1)], args[0]);
    if r.Ok? { ReplaceKeepsInv(tables, t, r.value.1); }
  }

  /** Every statement of this layer keeps every table well formed. */
  lemma ExecutedKeepsInv(online: bool, tables: Tables, run: ScriptRunner, stmt: Statement, args: seq<Arg>)
    requires TablesInv(tables) && !stmt.Script?
    ensures TablesInv(Executed(online, tables, run, stmt, args).1)
  {
    if online && PrepareError(tables, stmt, args).None? {
      match stmt
      case CreateFallback(t) =>
        FallbackInv(t);
        ReplaceKeepsInv(tables, t, FallbackTable(t));
      case Insert(t, cols) => InsertCaseKeepsInv(tables, run, t, cols, args);
      case UpdateById(t, cols) => UpdateCaseKeepsInv(tables, run, t, cols, args);
      case SoftDeleteById(t) => SoftDeleteCaseKeepsInv(tables, run, t, args);
      case DeleteById(t) => ReplaceKeepsInv(tables, t, DeleteRow(tables[t], args[0]).1);
      case SelectById(_) =>
      case SchemaLookup =>
    }
  }

  // ---------------------------------------------------------------------
  // The store object

  /** The backing store the pool hands out: whether the backend can be
      reached, its tables, and the oracle for migration scripts. */
  class Database {
    var online: bool
    var tables: Tables
    const run: ScriptRunner

    constructor (online: bool, tables: Tables, run: ScriptRunner)
      ensures this.online == online && this.tables == tables && this.run == run
    {
      this.online := online;
      this.tables := tables;
      this.run := run;
    }

    /** `execute`: runs one statement with its bound arguments. */
    method Execute(stmt: Statement, args: seq<Arg>) returns (r: Result<nat, DbError>)
      modifies this
      ensures online == old(online)
      ensures (r, tables) == Executed(online, old(tables), run, stmt, args)
    {
      var outcome := Executed(online, tables, run, stmt, args);
      r := outcome.0;
      tables := outcome.1;
    }

    /** `fetch_optional`: at most one row; no row is not an error. */
    method FetchOptional(stmt: Statement, args: seq<Arg>) returns (r: Result<Option<Row>, DbError>)
      ensures r == Fetched(online, tables, stmt, args)
    {
      r := Fetched(online, tables, stmt, args);
    }
  }
}
