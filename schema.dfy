/** `get_table_schema`: a read-only catalog lookup that turns every failure
    into "no schema". */
module Schema {
  import opened Wrappers
  import opened Text
  import opened Bindable
  import opened Store

  /** The definition text of `name` as `sqlite_master` holds it. The table
      name is bound as the query's one argument, never spliced. A query error,
      a missing row, or a first column that does not read as text all give
      `None`. */
  function GetTableSchema(online: bool, tables: Tables, name: string): (r: Option<string>)
    ensures r.Some? ==> online && name in tables && tables[name].sql == r
  {
    match OneRow(Fetched(online, tables, SchemaLookup, [TextArg(name)]))
    case Ok(row) => if "sql" in row && row["sql"].TextCell? then Some(row["sql"].text) else None
    case Err(_) => None
  }

  /** The lookup finds exactly the tables the catalog holds with a definition text. */
  lemma SchemaFound(online: bool, tables: Tables, name: string, sql: string)
    ensures GetTableSchema(online, tables, name) == Some(sql)
        <==> online && name in tables && tables[name].sql == Some(sql)
  {
  }

  /** No matching row, a NULL definition, or an unreachable backend: `None`,
      never an error. */
  lemma SchemaMissing(online: bool, tables: Tables, name: string)
    ensures GetTableSchema(online, tables, name).None?
        <==> !online || name !in tables || tables[name].sql.None?
  {
  }

  /** The query's text is fixed and asks for one parameter, which is the name. */
  lemma {:induction false} SchemaQueryHasOneParam()
    ensures Params(Sql(SchemaLookup)) == [1]
    ensures ParamCount(SchemaLookup) == 1
  {
    QueryWords();
    assert SchemaQueryText == SchemaSelect + (SchemaFilter + ("?" + ""));
    ParamsSkip(SchemaSelect, SchemaFilter + ("?" + ""), 0);
    ParamsSkip(SchemaFilter, "?" + "", 0);
    ParamsBare("", 0);
  }

  lemma QueryWords()
    ensures '?' !in SchemaSelect && '?' !in SchemaFilter
  {
  }
}
