/** The database configuration and the connection URL derived from it. */
module DbConfig {
  import opened Wrappers
  import opened Text
  import opened Bindable

  datatype SqliteConfig = SqliteConfig(dbPath: string)

  datatype PostgresConfig = PostgresConfig(user: string, password: string, host: string, port: UInt16, dbname: string)

  datatype DatabaseConfig = Sqlite(sqlite: SqliteConfig) | Postgres(postgres: PostgresConfig)

  const SqliteScheme: string := "sqlite://"
  const PostgresScheme: string := "postgresql://"

  /** The Postgres part after the scheme: `user:password@host:port/dbname`. */
  function Authority(c: PostgresConfig): string
  {
    c.user + ":" + c.password + "@" + c.host + ":" + Decimal(c.port) + "/" + c.dbname
  }

  /** `get_db_url`: every configuration has a URL; components are inserted
      verbatim, with no escaping, and the port in decimal. */
  function GetDbUrl(config: DatabaseConfig): (url: string)
    ensures HasPrefix(url, if config.Sqlite? then SqliteScheme else PostgresScheme)
  {
    match config
    case Sqlite(c) => SqliteScheme + c.dbPath
    case Postgres(c) => PostgresScheme + Authority(c)
  }

  predicate HasPrefix(s: string, p: string) { |p| <= |s| && s[..|p|] == p }

  /** The scheme tells which kind of configuration produced a URL. */
  lemma SchemeIdentifiesVariant(config: DatabaseConfig)
    ensures config.Sqlite? <==> HasPrefix(GetDbUrl(config), SqliteScheme)
    ensures config.Postgres? <==> HasPrefix(GetDbUrl(config), PostgresScheme)
  {
    var url := GetDbUrl(config);
    if config.Sqlite? {
      assert url[..|SqliteScheme|] == SqliteScheme;
      assert url[0] == 's' != PostgresScheme[0];
    } else {
      assert url[..|PostgresScheme|] == PostgresScheme;
      assert url[0] == 'p' != SqliteScheme[0];
    }
  }

  /** `s` cut at the first `c`, which is dropped; `None` without a `c`. */
  function SplitAt(s: string, c: char): Option<(string, string)>
  {
    var i := IndexOf(s, c);
    if i == |s| then None else Some((s[..i], s[i + 1..]))
  }

  lemma SplitAtJoin(a: string, c: char, b: string)
    requires c !in a
    ensures SplitAt(a + [c] + b, c) == Some((a, b))
  {
    var s := a + [c] + b;
    IndexOfAppend(a, c, b);
    assert s[..|a|] == a && s[|a| + 1..] == b;
  }

  /** Reads `user:password@host:port/dbname`, splitting at the first ':',
      then the first '@', then the first ':' and the first '/'. */
  function ParseAuthority(s: string): Option<PostgresConfig>
  {
    match SplitAt(s, ':')
    case None => None
    case Some((user, afterUser)) =>
      match SplitAt(afterUser, '@')
      case None => None
      case Some((password, afterPassword)) =>
        match SplitAt(afterPassword, ':')
        case None => None
        case Some((host, afterHost)) =>
          match SplitAt(afterHost, '/')
          case None => None
          case Some((portText, dbname)) =>
            match ParseDecimal(portText)
            case None => None
            case Some(port) =>
              if port > 0xFFFF then None else Some(PostgresConfig(user, password, host, port, dbname))
  }

  /** Reads a URL back into a configuration by its scheme. It is the inverse
      of `GetDbUrl` on configurations whose components contain none of the
      Postgres delimiters. */
  function ParseDbUrl(url: string): Option<DatabaseConfig>
  {
    if HasPrefix(url, SqliteScheme) then Some(Sqlite(SqliteConfig(url[|SqliteScheme|..])))
    else if !HasPrefix(url, PostgresScheme) then None
    else match ParseAuthority(url[|PostgresScheme|..])
      case None => None
      case Some(c) => Some(Postgres(c))
  }

  /** A SQLite URL gives back its path, whatever the path holds. */
  lemma SqliteRoundTrip(c: SqliteConfig)
    ensures ParseDbUrl(GetDbUrl(Sqlite(c))) == Some(Sqlite(c))
  {
    var url := GetDbUrl(Sqlite(c));
    assert url[..|SqliteScheme|] == SqliteScheme;
    assert url[|SqliteScheme|..] == c.dbPath;
  }

  lemma AuthorityRoundTrip(c: PostgresConfig)
    requires ':' !in c.user && '@' !in c.password && ':' !in c.host
    ensures ParseAuthority(Authority(c)) == Some(c)
  {
    var port := Decimal(c.port);
    var afterHost := port + ['/'] + c.dbname;
    var afterPassword := c.host + [':'] + afterHost;
    var afterUser := c.password + ['@'] + afterPassword;
    assert Authority(c) == c.user + [':'] + afterUser;
    SplitAtJoin(c.user, ':', afterUser);
    SplitAtJoin(c.password, '@', afterPassword);
    SplitAtJoin(c.host, ':', afterHost);
    assert '/' !in port by {
      forall i | 0 <= i < |port| ensures port[i] != '/' {
        assert IsDigit(port[i]);
      }
    }
    SplitAtJoin(port, '/', c.dbname);
    DecimalRoundTrip(c.port);
  }

  /** A Postgres URL gives back its configuration when the user has no ':',
      the password no '@' and the host no ':'. */
  lemma PostgresRoundTrip(c: PostgresConfig)
    requires ':' !in c.user && '@' !in c.password && ':' !in c.host
    ensures ParseDbUrl(GetDbUrl(Postgres(c))) == Some(Postgres(c))
  {
    var url := GetDbUrl(Postgres(c));
    assert url[..|PostgresScheme|] == PostgresScheme;
    assert url[0] == 'p' != SqliteScheme[0];
    assert url[|PostgresScheme|..] == Authority(c);
    AuthorityRoundTrip(c);
  }

  /** Because components are inserted verbatim, a ':' in the user and one in
      the password can trade places: two different configurations share a
      URL. */
  lemma UrlNotInjective()
    ensures var a := Postgres(PostgresConfig("app:ro", "secret", "db", 5432, "main"));
      var b := Postgres(PostgresConfig("app", "ro:secret", "db", 5432, "main"));
      a != b && GetDbUrl(a) == GetDbUrl(b)
  {
    var a := PostgresConfig("app:ro", "secret", "db", 5432, "main");
    var b := PostgresConfig("app", "ro:secret", "db", 5432, "main");
    assert a.user != b.user by { assert |a.user| != |b.user|; }
    assert a.user + ":" + a.password == b.user + ":" + b.password;
  }
}
