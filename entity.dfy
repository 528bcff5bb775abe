/** The entity contract (`Entity<Sqlite>`): what a type must supply to be
    stored by the generic repository. A Rust trait becomes an explicit record
    of the type's capabilities, passed to the repository. */
module Entity {
  import opened Wrappers
  import opened Bindable
  import opened Store

  /** One `(column, value)` pair of an entity's encoding. */
  datatype Column = Column(name: string, value: Value)

  /** The capabilities of an entity type `T`:
      - `tableName`: `get_table_name`, a constant of the type, needing no instance;
      - `toValues`: `to_values`, the ordered encoding of every persisted field;
      - `fromRow`: the row decoder the repository's `fetch` uses (sqlx `FromRow`);
      - `id`: `id`, the primary key as text. */
  datatype EntityKind<!T> = EntityKind(
    tableName: string,
    toValues: T -> seq<Column>,
    fromRow: Row -> Result<T, DbError>,
    id: T -> string)

  /** The column list of an encoding, in order. */
  function ColumnNames(values: seq<Column>): (names: seq<string>)
    ensures |names| == |values|
    ensures forall i :: 0 <= i < |values| ==> names[i] == values[i].name
  {
    seq(|values|, i requires 0 <= i < |values| => values[i].name)
  }

  /** The arguments `bind_values` binds for an encoding: each value's `bind`,
      in column order. */
  function BoundArgs(values: seq<Column>): (args: seq<Arg>)
    ensures |args| == |values|
    ensures forall i :: 0 <= i < |values| ==> args[i] == ToArg(values[i].value)
  {
    seq(|values|, i requires 0 <= i < |values| => ToArg(values[i].value))
  }

  /** `Row::try_get::<String>`: a missing column or a non-text cell is an error. */
  function GetText(row: Row, column: string): (r: Result<string, DbError>)
    ensures r.Ok? <==> column in row && row[column].TextCell?
    ensures r.Ok? ==> row[column] == TextCell(r.value)
    ensures column !in row ==> r == Err(ColumnNotFound(column))
  {
    if column !in row then Err(ColumnNotFound(column))
    else match row[column]
      case TextCell(s) => Ok(s)
      case _ => Err(ColumnDecode(column))
  }

  /** `Row::try_get::<bool>`: SQLite keeps booleans as integers; any non-zero
      integer reads as true. */
  function GetBool(row: Row, column: string): (r: Result<bool, DbError>)
    ensures r.Ok? <==> column in row && row[column].Integer?
    ensures r.Ok? ==> r.value == (row[column].n != 0)
    ensures column !in row ==> r == Err(ColumnNotFound(column))
  {
    if column !in row then Err(ColumnNotFound(column))
    else match row[column]
      case Integer(n) => Ok(n != 0)
      case _ => Err(ColumnDecode(column))
  }
}
