/** The `User` entity the repository is exercised with: a text id, a name,
    an email and a logical-delete flag, stored in the table `users`. */
module Users {
  import opened Wrappers
  import opened Bindable
  import opened Store
  import opened Entity

  datatype User = User(id: string, name: string, email: string, deleted: bool)

  /** `User::new`: a user that is not deleted. */
  function NewUser(id: string, name: string, email: string): (u: User)
    ensures u.id == id && u.name == name && u.email == email && !u.deleted
  {
    User(id, name, email, false)
  }

  /** `get_table_name`. */
  function TableName(): string { "users" }

  /** The persisted fields, in the order `to_values` lists them. */
  const UserColumnNames: seq<string> := ["id", "name", "email", "deleted"]

  /** `to_values`: id, name, email, deleted, in that order. */
  function ToValues(u: User): (values: seq<Column>)
    ensures ColumnNames(values) == UserColumnNames
  {
    [Column("id", Str(u.id)), Column("name", Str(u.name)), Column("email", Str(u.email)),
     Column("deleted", Boolean(u.deleted))]
  }

  /** The row decoder: each field read by name, in declaration order, the
      first failure returned. `deleted` is read from an integer, non-zero
      meaning true. */
  function FromRow(row: Row): (r: Result<User, DbError>)
    ensures r.Ok? ==> && "id" in row && row["id"] == TextCell(r.value.id)
                      && "name" in row && row["name"] == TextCell(r.value.name)
                      && "email" in row && row["email"] == TextCell(r.value.email)
                      && "deleted" in row && row["deleted"].Integer? && r.value.deleted == (row["deleted"].n != 0)
  {
    var id :- GetText(row, "id");
    var name :- GetText(row, "name");
    var email :- GetText(row, "email");
    var deleted :- GetBool(row, "deleted");
    Ok(User(id, name, email, deleted))
  }

  /** `id`. */
  function Id(u: User): string { u.id }

  const UserEntity: EntityKind<User> := EntityKind(TableName(), ToValues, FromRow, Id)

  /** The `users` table of the repository test: `id TEXT PRIMARY KEY`,
      `name` and `email` `TEXT NOT NULL`, `deleted INTEGER NOT NULL DEFAULT 0`. */
  const UsersColumns: seq<ColumnDef> :=
    [ColumnDef("id", false, Null), ColumnDef("name", true, Null),
     ColumnDef("email", true, Null), ColumnDef("deleted", true, Integer(0))]

  function UsersTable(): (t: Table)
    ensures TableInv(t) && t.rows == map[]
  {
    UsersNames();
    Table(Some(UsersSql), UsersColumns, map[])
  }

  const UsersSql: string :=
    "CREATE TABLE users (id TEXT PRIMARY KEY, name TEXT NOT NULL, email TEXT NOT NULL, deleted INTEGER NOT NULL DEFAULT 0)"

  /** The table's column names, in declaration order, are distinct and
      include the key. */
  lemma UsersNames()
    ensures Names(UsersColumns) == UserColumnNames
    ensures Distinct(Names(UsersColumns)) && "id" in Names(UsersColumns)
  {
    var ns := Names(UsersColumns);
    assert ns == ["id", "name", "email", "deleted"];
    assert ns[0] == "id";
  }

  /** Decoding succeeds exactly when id, name and email are text and deleted
      is an integer; otherwise the first offending column is reported. */
  lemma FromRowSucceeds(row: Row)
    ensures FromRow(row).Ok? <==>
      && "id" in row && row["id"].TextCell?
      && "name" in row && row["name"].TextCell?
      && "email" in row && row["email"].TextCell?
      && "deleted" in row && row["deleted"].Integer?
    ensures FromRow(row).Ok? ==>
      FromRow(row).value == User(row["id"].text, row["name"].text, row["email"].text, row["deleted"].n != 0)
  {
  }

  /** The cells a stored row holds for a user: three texts and the flag as
      the integer 0 or 1, as `bind` stores a bool. */
  predicate Encodes(row: Row, u: User)
  {
    && "id" in row && row["id"] == TextCell(u.id)
    && "name" in row && row["name"] == TextCell(u.name)
    && "email" in row && row["email"] == TextCell(u.email)
    && "deleted" in row && row["deleted"] == Integer(if u.deleted then 1 else 0)
  }

  /** A row that encodes a user decodes back to exactly that user. */
  lemma EncodedDecodes(row: Row, u: User)
    requires Encodes(row, u)
    ensures FromRow(row) == Ok(u)
  {
    FromRowSucceeds(row);
  }

  /** A row that encodes a user satisfies every NOT NULL of the table and
      carries the user's id as its key. */
  lemma EncodedFits(row: Row, u: User)
    requires Encodes(row, u)
    ensures NullViolation(UsersColumns, row).None?
    ensures KeyOf(row) == Some(u.id)
  {
    assert Names(UsersColumns) == ["id", "name", "email", "deleted"];
  }

  /** The assignments `create` and `update` make from a user's values encode
      that user, and name exactly the table's columns. */
  lemma AssignedEncodes(u: User)
    ensures var values := ToValues(u);
      var m := Assign(ColumnNames(values), Cells(BoundArgs(values)));
      Encodes(m, u) && m.Keys == set c | c in Names(UsersColumns)
  {
    var values := ToValues(u);
    var cols := ColumnNames(values);
    var cells := Cells(BoundArgs(values));
    UserCells(u);
    UsersNames();
    AssignLookup(cols, cells);
    var m := Assign(cols, cells);
    assert m[cols[0]] == cells[0] && m[cols[1]] == cells[1];
    assert m[cols[2]] == cells[2] && m[cols[3]] == cells[3];
  }

  /** The cells a user's bound values are stored as. */
  lemma UserCells(u: User)
    ensures Cells(BoundArgs(ToValues(u)))
         == [TextCell(u.id), TextCell(u.name), TextCell(u.email), Integer(if u.deleted then 1 else 0)]
  {
    var cells := Cells(BoundArgs(ToValues(u)));
    assert |cells| == 4;
    assert cells[0] == TextCell(u.id) && cells[1] == TextCell(u.name);
    assert cells[2] == TextCell(u.email) && cells[3] == Integer(if u.deleted then 1 else 0);
  }

  /** The row INSERT builds from assignments that encode a user encodes it too. */
  lemma NewRowEncodes(m: map<string, Cell>, u: User)
    requires Encodes(m, u)
    ensures Encodes(NewRow(UsersColumns, m), u)
  {
    var names := Names(UsersColumns);
    assert names == ["id", "name", "email", "deleted"];
    assert names[0] in names && names[1] in names && names[2] in names && names[3] in names;
  }

  /** The row the store builds from a user's bound values reads back as that
      user. */
  lemma StoredRowDecodes(u: User)
    ensures var values := ToValues(u);
      FromRow(NewRow(UsersColumns, Assign(ColumnNames(values), Cells(BoundArgs(values))))) == Ok(u)
  {
    var values := ToValues(u);
    var m := Assign(ColumnNames(values), Cells(BoundArgs(values)));
    AssignedEncodes(u);
    NewRowEncodes(m, u);
    EncodedDecodes(NewRow(UsersColumns, m), u);
  }
}
