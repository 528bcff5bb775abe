/** `MigrationManager`: making sure named tables exist, and running the
    `.sql` scripts of a migrations directory in listing order. Both stop at
    the first error, leaving the effect of the steps before it in place. */
module Migration {
  import opened Wrappers
  import opened Text
  import opened Bindable
  import opened Store
  import opened Schema

  // ---------------------------------------------------------------------
  // ensure_database

  /** What `CREATE TABLE IF NOT EXISTS t (id TEXT PRIMARY KEY, name TEXT)`
      does: it adds the fallback table when `t` is absent and leaves an
      existing table alone; a name that does not parse is a syntax error. */
  lemma ExecutedCreateFallback(online: bool, tables: Tables, run: ScriptRunner, t: string)
    ensures Executed(online, tables, run, CreateFallback(t), [])
         == if !online then (Err(ConnectionFailed), tables)
            else if !IsIdentifier(t) then (Err(SyntaxError(t)), tables)
            else (Ok(0), if t in tables then tables else tables[t := FallbackTable(t)])
  {
    assert FirstBadName([t]) == if IsIdentifier(t) then None else Some(t);
  }

  /** The fallback table's statement text splices the name and binds nothing. */
  lemma FallbackHasNoParams(t: string)
    requires IsIdentifier(t)
    ensures Params(Sql(CreateFallback(t))) == [] && ParamCount(CreateFallback(t)) == 0
  {
    var prefix := "CREATE TABLE IF NOT EXISTS ";
    FallbackWords();
    IdentifierHasNoParam(t);
    assert Sql(CreateFallback(t)) == prefix + (t + (FallbackColumnsText + ""));
    ParamsSkip(prefix, t + (FallbackColumnsText + ""), 0);
    ParamsSkip(t, FallbackColumnsText + "", 0);
    ParamsSkip(FallbackColumnsText, "", 0);
  }

  lemma FallbackWords()
    ensures '?' !in "CREATE TABLE IF NOT EXISTS " && '?' !in FallbackColumnsText
  {
  }

  /** `ensure_database` as a fold over the names, in order: a name whose
      schema lookup gives `None` gets the fallback table; the first failing
      CREATE ends the fold with the tables as they were just before it. */
  function Ensured(online: bool, tables: Tables, run: ScriptRunner, names: seq<string>): (Result<Unit, DbError>, Tables)
    decreases |names|
  {
    if names == [] then (Ok(Unit), tables)
    else if GetTableSchema(online, tables, names[0]).Some? then Ensured(online, tables, run, names[1..])
    else
      var out := Executed(online, tables, run, CreateFallback(names[0]), []);
      if out.0.Err? then (Err(out.0.error), tables)
      else Ensured(online, out.1, run, names[1..])
  }

  /** `ensure_database`. */
  method EnsureDatabase(db: Database, names: seq<string>) returns (r: Result<Unit, DbError>)
    modifies db
    ensures db.online == old(db.online)
    ensures (r, db.tables) == Ensured(old(db.online), old(db.tables), db.run, names)
  {
    var i := 0;
    while i < |names|
      invariant 0 <= i <= |names|
      invariant db.online == old(db.online)
      invariant Ensured(db.online, old(db.tables), db.run, names) == Ensured(db.online, db.tables, db.run, names[i..])
    {
      assert names[i..][1..] == names[i + 1..];
      if GetTableSchema(db.online, db.tables, names[i]).None? {
        var created := db.Execute(CreateFallback(names[i]), []);
        if created.Err? {
          return Err(created.error);
        }
      }
      i := i + 1;
    }
    r := Ok(Unit);
  }

  /** Splitting the list: the second part runs on what the first part left,
      and only when the first part succeeded. */
  lemma {:induction false} EnsuredSplit(online: bool, tables: Tables, run: ScriptRunner, a: seq<string>, b: seq<string>)
    ensures var first := Ensured(online, tables, run, a);
      Ensured(online, tables, run, a + b)
      == if first.0.Err? then first else Ensured(online, first.1, run, b)
    decreases |a|
  {
    if a == [] {
      assert a + b == b;
    } else {
      assert (a + b)[0] == a[0];
      assert (a + b)[1..] == a[1..] + b;
      if GetTableSchema(online, tables, a[0]).Some? {
        EnsuredSplit(online, tables, run, a[1..], b);
      } else {
        var out := Executed(online, tables, run, CreateFallback(a[0]), []);
        if out.0.Ok? {
          EnsuredSplit(online, out.1, run, a[1..], b);
        }
      }
    }
  }

  /** Existing tables are never replaced or removed, whatever the outcome,
      and tables are only ever added under the listed names. */
  lemma {:induction false} EnsuredPreserves(online: bool, tables: Tables, run: ScriptRunner, names: seq<string>)
    ensures var after := Ensured(online, tables, run, names).1;
      && (forall n :: n in tables ==> n in after && after[n] == tables[n])
      && (forall n :: n in after && n !in tables ==> n in names && after[n] == FallbackTable(n))
    decreases |names|
  {
    if names != [] {
      ExecutedCreateFallback(online, tables, run, names[0]);
      if GetTableSchema(online, tables, names[0]).Some? {
        EnsuredPreserves(online, tables, run, names[1..]);
      } else {
        var out := Executed(online, tables, run, CreateFallback(names[0]), []);
        if out.0.Ok? {
          EnsuredPreserves(online, out.1, run, names[1..]);
        }
      }
    }
  }

  /** A name is settled when the table exists and ensuring it again issues
      nothing that could fail: its definition text is known, or the name
      parses so that `IF NOT EXISTS` makes the CREATE a no-op. */
  predicate Settled(tables: Tables, n: string)
  {
    n in tables && (tables[n].sql.Some? || IsIdentifier(n))
  }

  /** After a successful run every listed name is settled. */
  lemma {:induction false} EnsuredSettles(online: bool, tables: Tables, run: ScriptRunner, names: seq<string>)
    requires Ensured(online, tables, run, names).0.Ok?
    ensures forall n :: n in names ==> Settled(Ensured(online, tables, run, names).1, n)
    decreases |names|
  {
    if names != [] {
      var n0 := names[0];
      ExecutedCreateFallback(online, tables, run, n0);
      var next := if GetTableSchema(online, tables, n0).Some? then tables
                  else Executed(online, tables, run, CreateFallback(n0), []).1;
      assert Ensured(online, tables, run, names) == Ensured(online, next, run, names[1..]);
      assert Settled(next, n0) by {
        if GetTableSchema(online, tables, n0).Some? {
          SchemaMissing(online, tables, n0);
        }
      }
      EnsuredSettles(online, next, run, names[1..]);
      EnsuredPreserves(online, next, run, names[1..]);
      forall n | n in names ensures Settled(Ensured(online, tables, run, names).1, n) {
        if n != n0 {
          assert n in names[1..];
        }
      }
    }
  }

  /** With every name settled and the backend reachable, ensuring changes
      nothing and succeeds. */
  lemma {:induction false} EnsuredSettledNoOp(tables: Tables, run: ScriptRunner, names: seq<string>)
    requires forall n :: n in names ==> Settled(tables, n)
    ensures Ensured(true, tables, run, names) == (Ok(Unit), tables)
    decreases |names|
  {
    if names != [] {
      assert names[0] in names;
      ExecutedCreateFallback(true, tables, run, names[0]);
      SchemaMissing(true, tables, names[0]);
      assert forall n :: n in names[1..] ==> n in names;
      EnsuredSettledNoOp(tables, run, names[1..]);
    }
  }

  /** Calling `ensure_database` again with the same list after a success
      creates nothing and succeeds. */
  lemma EnsuredIdempotent(online: bool, tables: Tables, run: ScriptRunner, names: seq<string>)
    requires Ensured(online, tables, run, names).0.Ok?
    ensures var after := Ensured(online, tables, run, names).1;
      Ensured(online, after, run, names) == (Ok(Unit), after)
  {
    var after := Ensured(online, tables, run, names).1;
    if names == [] {
    } else if !online {
      assert false;
    } else {
      EnsuredSettles(online, tables, run, names);
      EnsuredSettledNoOp(after, run, names);
    }
  }

  // ---------------------------------------------------------------------
  // run_migrations

  /** One entry of a directory listing: one the iterator could not read, or
      a file with its name and, when reading it as text succeeds, its
      contents. */
  datatype Entry = Unreadable(reason: string) | File(name: string, contents: Option<string>)

  /** The migrations directory: missing (and whether creating it works), or
      present with its listing (or the reason listing failed). */
  datatype Directory =
    | Missing(creatable: bool)
    | Present(listing: Result<seq<Entry>, string>)

  /** Index of the last `c` in `s`, if any. */
  function LastIndex(s: string, c: char): (r: Option<nat>)
    ensures r.None? <==> c !in s
    ensures r.Some? ==> r.value < |s| && s[r.value] == c && forall j :: r.value < j < |s| ==> s[j] != c
    decreases |s|
  {
    if s == [] then None
    else if s[|s| - 1] == c then Some(|s| - 1)
    else LastIndex(s[..|s| - 1], c)
  }

  /** `Path::extension` of a file name: what follows the last '.', with no
      extension when there is no '.', when the only '.' leads the name, or
      for `..`. */
  function Extension(name: string): (e: Option<string>)
    ensures e.Some? ==> |e.value| < |name| - 1 && name[|name| - |e.value|..] == e.value
    ensures e.Some? ==> name[|name| - |e.value| - 1] == '.' && '.' !in e.value
  {
    if name == ".." then None
    else match LastIndex(name, '.')
      case None => None
      case Some(k) => if k == 0 then None else Some(name[k + 1..])
  }

  predicate IsSqlScript(name: string)
  {
    Extension(name) == Some("sql")
  }

  /** A file is a script exactly when its name is longer than `.sql` and
      ends with it: `.sql` alone is a hidden file with no extension. */
  lemma SqlExtensionIff(name: string)
    ensures IsSqlScript(name) <==> |name| > 4 && name[|name| - 4..] == ".sql"
  {
    var n := |name|;
    if |name| > 4 && name[n - 4..] == ".sql" {
      assert name[n - 4] == '.' && name[n - 3] == 's' && name[n - 2] == 'q' && name[n - 1] == 'l';
      var r := LastIndex(name, '.');
      assert r.Some?;
      assert r.value == n - 4;
      assert name != "..";
      assert name[n - 3..] == "sql";
    }
    if IsSqlScript(name) {
      var k := LastIndex(name, '.').value;
      assert name[k + 1..] == "sql";
      assert n == k + 4;
      assert name[n - 4..] == [name[k]] + name[k + 1..];
    }
  }

  /** Running the entries in order: a non-script is skipped, an unreadable
      entry or file is an I/O error, and a script's whole contents go to one
      `execute`; the first error ends the run with the effect of the scripts
      before it and of the failing script's statements that ran. */
  function Migrated(online: bool, tables: Tables, run: ScriptRunner, entries: seq<Entry>): (Result<Unit, DbError>, Tables)
    decreases |entries|
  {
    if entries == [] then (Ok(Unit), tables)
    else match entries[0]
      case Unreadable(reason) => (Err(Io(reason)), tables)
      case File(name, contents) =>
        if !IsSqlScript(name) then Migrated(online, tables, run, entries[1..])
        else match contents
          case None => (Err(Io(name)), tables)
          case Some(sql) =>
            var out := Executed(online, tables, run, Script(sql), []);
            if out.0.Err? then (Err(out.0.error), out.1)
            else Migrated(online, out.1, run, entries[1..])
  }

  /** `run_migrations`: a missing directory is created (and then holds
      nothing to run); a listing that fails is an I/O error. */
  function MigrationsRun(online: bool, tables: Tables, run: ScriptRunner, dir: Directory): (Result<Unit, DbError>, Tables)
  {
    match dir
    case Missing(creatable) => if creatable then (Ok(Unit), tables) else (Err(Io("create_dir_all")), tables)
    case Present(Err(reason)) => (Err(Io(reason)), tables)
    case Present(Ok(entries)) => Migrated(online, tables, run, entries)
  }

  /** `run_migrations`. */
  method RunMigrations(db: Database, dir: Directory) returns (r: Result<Unit, DbError>)
    modifies db
    ensures db.online == old(db.online)
    ensures (r, db.tables) == MigrationsRun(old(db.online), old(db.tables), db.run, dir)
  {
    var entries: seq<Entry>;
    match dir {
      case Missing(creatable) =>
        if !creatable {
          return Err(Io("create_dir_all"));
        }
        entries := [];
      case Present(listing) =>
        if listing.Err? {
          return Err(Io(listing.error));
        }
        entries := listing.value;
    }
    var i := 0;
    while i < |entries|
      invariant 0 <= i <= |entries|
      invariant db.online == old(db.online)
      invariant MigrationsRun(db.online, old(db.tables), db.run, dir) == Migrated(db.online, db.tables, db.run, entries[i..])
    {
      assert entries[i..][1..] == entries[i + 1..];
      match entries[i] {
        case Unreadable(reason) =>
          return Err(Io(reason));
        case File(name, contents) =>
          if IsSqlScript(name) {
            if contents.None? {
              return Err(Io(name));
            }
            var applied := db.Execute(Script(contents.value), []);
            if applied.Err? {
              return Err(applied.error);
            }
          }
      }
      i := i + 1;
    }
    r := Ok(Unit);
  }

  /** The scripts a listing runs: the contents of its `.sql` files, in
      listing order. */
  function Scripts(entries: seq<Entry>): seq<string>
    requires forall i :: 0 <= i < |entries| ==> entries[i].File? && entries[i].contents.Some?
    decreases |entries|
  {
    if entries == [] then []
    else if IsSqlScript(entries[0].name) then [entries[0].contents.value] + Scripts(entries[1..])
    else Scripts(entries[1..])
  }

  /** Running scripts one after another, stopping at the first failure,
      whose partial effect stays. */
  function RunAll(online: bool, tables: Tables, run: ScriptRunner, scripts: seq<string>): (Result<Unit, DbError>, Tables)
    decreases |scripts|
  {
    if scripts == [] then (Ok(Unit), tables)
    else
      var out := Executed(online, tables, run, Script(scripts[0]), []);
      if out.0.Err? then (Err(out.0.error), out.1)
      else RunAll(online, out.1, run, scripts[1..])
  }

  /** With every entry a readable file, a migration run is exactly running
      the `.sql` files' contents in listing order; nothing else executes. */
  lemma {:induction false} MigratedRunsScripts(online: bool, tables: Tables, run: ScriptRunner, entries: seq<Entry>)
    requires forall i :: 0 <= i < |entries| ==> entries[i].File? && entries[i].contents.Some?
    ensures Migrated(online, tables, run, entries) == RunAll(online, tables, run, Scripts(entries))
    decreases |entries|
  {
    if entries != [] {
      var rest := entries[1..];
      assert forall i :: 0 <= i < |rest| ==> rest[i] == entries[i + 1];
      if IsSqlScript(entries[0].name) {
        var out := Executed(online, tables, run, Script(entries[0].contents.value), []);
        if out.0.Ok? {
          MigratedRunsScripts(online, out.1, run, rest);
        }
      } else {
        MigratedRunsScripts(online, tables, run, rest);
      }
    }
  }

  /** A failing script aborts the rest; the scripts before it stay applied. */
  lemma {:induction false} RunAllSplit(online: bool, tables: Tables, run: ScriptRunner, a: seq<string>, b: seq<string>)
    ensures var first := RunAll(online, tables, run, a);
      RunAll(online, tables, run, a + b) == if first.0.Err? then first else RunAll(online, first.1, run, b)
    decreases |a|
  {
    if a == [] {
      assert a + b == b;
    } else {
      assert (a + b)[0] == a[0];
      assert (a + b)[1..] == a[1..] + b;
      var out := Executed(online, tables, run, Script(a[0]), []);
      if out.0.Ok? {
        RunAllSplit(online, out.1, run, a[1..], b);
      }
    }
  }

  /** A missing directory that can be created, or an empty one, runs nothing
      and succeeds. */
  lemma NothingToRun(online: bool, tables: Tables, run: ScriptRunner)
    ensures MigrationsRun(online, tables, run, Missing(true)) == (Ok(Unit), tables)
    ensures MigrationsRun(online, tables, run, Present(Ok([]))) == (Ok(Unit), tables)
  {
  }

  /** A directory without `.sql` files runs nothing, however many other
      files it holds. */
  lemma {:induction false} NoScriptsNoChange(online: bool, tables: Tables, run: ScriptRunner, entries: seq<Entry>)
    requires forall i :: 0 <= i < |entries| ==> entries[i].File? && !IsSqlScript(entries[i].name)
    ensures Migrated(online, tables, run, entries) == (Ok(Unit), tables)
    decreases |entries|
  {
    if entries != [] {
      var rest := entries[1..];
      assert forall i :: 0 <= i < |rest| ==> rest[i] == entries[i + 1];
      NoScriptsNoChange(online, tables, run, rest);
    }
  }
}
