/** Configuration from environment variables, with a default for each, and the
    two strings derived from it. The process environment is a parameter: the
    map from variable names to values, after any `.env` file was merged in. */
module Config {
  import opened Results
  import opened Decimal

  type Env = map<string, string>

  datatype ServerConfig = ServerConfig(host: string, port: int)

  datatype DatabaseConfig = DatabaseConfig(
    host: string,
    port: int,
    username: string,
    password: string,
    dbName: string,
    charset: string)

  datatype AppConfig = AppConfig(name: string, version: string, environment: string, logLevel: string)

  datatype Config = Config(server: ServerConfig, database: DatabaseConfig, app: AppConfig)

  /** `os.Getenv`: an unset variable reads as the empty string. */
  function Getenv(env: Env, key: string): (v: string)
    ensures key in env ==> v == env[key]
    ensures key !in env ==> v == ""
  {
    if key in env then env[key] else ""
  }

  /** `getEnv`: the variable's value when it is set and non-empty, else the fallback. */
  function GetEnv(env: Env, key: string, fallback: string): (v: string)
    ensures key in env && env[key] != "" ==> v == env[key]
    ensures key !in env || env[key] == "" ==> v == fallback
  {
    var value := Getenv(env, key);
    if value != "" then value else fallback
  }

  /** `getEnvAsInt`: the variable's value when it is set, non-empty and parses
      as a 64-bit integer, else the fallback. */
  function GetEnvAsInt(env: Env, key: string, fallback: int): (v: int)
    ensures key in env && Atoi(env[key]).Some? ==> v == Atoi(env[key]).value
    ensures key !in env || Atoi(env[key]).None? ==> v == fallback
    ensures MinInt64 <= fallback <= MaxInt64 ==> MinInt64 <= v <= MaxInt64
  {
    var value := Getenv(env, key);
    if value != "" then
      match Atoi(value)
      case Some(n) => n
      case None => fallback
    else fallback
  }

  const DefaultServerPort := 8082
  const DefaultDatabasePort := 3306

  /** `Load`: every field from its variable, with the documented default; the
      error it returns is always nil. */
  function Load(env: Env): (r: (Config, Option<string>))
    ensures r.1 == None
    ensures r.0.server == ServerConfig(GetEnv(env, "SERVER_HOST", "localhost"), GetEnvAsInt(env, "SERVER_PORT", DefaultServerPort))
    ensures r.0.database == DatabaseConfig(
      GetEnv(env, "DB_HOST", "localhost"), GetEnvAsInt(env, "DB_PORT", DefaultDatabasePort),
      GetEnv(env, "DB_USERNAME", "root"), GetEnv(env, "DB_PASSWORD", ""),
      GetEnv(env, "DB_NAME", "rest_api_db"), GetEnv(env, "DB_CHARSET", "utf8mb4"))
    ensures r.0.app == AppConfig(
      GetEnv(env, "APP_NAME", "REST API Project"), GetEnv(env, "APP_VERSION", "1.0.0"),
      GetEnv(env, "APP_ENV", "development"), GetEnv(env, "LOG_LEVEL", "info"))
    ensures MinInt64 <= r.0.server.port <= MaxInt64 && MinInt64 <= r.0.database.port <= MaxInt64
  {
    var config := Config(
      ServerConfig(
        GetEnv(env, "SERVER_HOST", "localhost"),
        GetEnvAsInt(env, "SERVER_PORT", DefaultServerPort)),
      DatabaseConfig(
        GetEnv(env, "DB_HOST", "localhost"),
        GetEnvAsInt(env, "DB_PORT", DefaultDatabasePort),
        GetEnv(env, "DB_USERNAME", "root"),
        GetEnv(env, "DB_PASSWORD", ""),
        GetEnv(env, "DB_NAME", "rest_api_db"),
        GetEnv(env, "DB_CHARSET", "utf8mb4")),
      AppConfig(
        GetEnv(env, "APP_NAME", "REST API Project"),
        GetEnv(env, "APP_VERSION", "1.0.0"),
        GetEnv(env, "APP_ENV", "development"),
        GetEnv(env, "LOG_LEVEL", "info")));
    (config, None)
  }

  /** The configuration `Load` gives when no variable is set. */
  const Defaults := Config(
    ServerConfig("localhost", 8082),
    DatabaseConfig("localhost", 3306, "root", "", "rest_api_db", "utf8mb4"),
    AppConfig("REST API Project", "1.0.0", "development", "info"))

  /** With nothing set, or only empty values, every field takes its default. */
  lemma LoadWithoutVariables(env: Env)
    requires forall key :: key in env ==> env[key] == ""
    ensures Load(env) == (Defaults, None)
  {
  }

  /** `GetServerAddress`: `host:port`. */
  function GetServerAddress(c: Config): (a: string)
    ensures |a| > |c.server.host| && a[..|c.server.host|] == c.server.host && a[|c.server.host|] == ':'
  {
    c.server.host + ":" + DecimalString(c.server.port)
  }

  /** The address splits back into the host and the port: the port's rendering
      has no colon, so the last colon is the separator, and what follows it
      reads back as the port. */
  lemma ServerAddressRoundTrip(c: Config)
    requires MinInt64 <= c.server.port <= MaxInt64
    ensures var a := GetServerAddress(c); var i := |c.server.host|;
      && i < |a| && a[..i] == c.server.host && a[i] == ':'
      && (forall j :: i < j < |a| ==> a[j] != ':')
      && Atoi(a[i + 1..]) == Some(c.server.port)
      // the port is written as `%d` writes it: no `+`, no leading zero
      && Canonical(a[i + 1..])
  {
    var a := GetServerAddress(c);
    var i := |c.server.host|;
    var p := DecimalString(c.server.port);
    assert a[i + 1..] == p;
    forall j | i < j < |a| ensures a[j] != ':' {
      assert a[j] == p[j - i - 1];
      NatStringNoColon(if c.server.port < 0 then -c.server.port else c.server.port);
    }
    AtoiDecimalString(c.server.port);
  }

  lemma NatStringNoColon(n: nat)
    ensures forall k :: 0 <= k < |NatString(n)| ==> NatString(n)[k] != ':'
  {
    var s := NatString(n);
    assert forall k :: 0 <= k < |s| ==> IsDigit(s[k]);
  }

  /** The suffix every MySQL DSN ends with. */
  const DsnOptions := "?charset=utf8mb4&parseTime=True&loc=Local"

  /** `GetDatabaseURL`: the MySQL DSN `user:pass@tcp(host:port)/db?options`. */
  function GetDatabaseURL(c: Config): (u: string)
    ensures |u| >= |DsnOptions| && u[|u| - |DsnOptions|..] == DsnOptions
    ensures |u| > |c.database.username| && u[..|c.database.username| + 1] == c.database.username + ":"
  {
    c.database.username + ":" + c.database.password
    + "@tcp(" + c.database.host + ":" + DecimalString(c.database.port) + ")/"
    + c.database.dbName + DsnOptions
  }

  /** The DSN takes apart into its pieces: the credentials, the host, a port
      text that reads back as the port, and the database name, followed by
      the fixed options. */
  lemma DatabaseUrlRoundTrip(c: Config)
    requires MinInt64 <= c.database.port <= MaxInt64
    ensures exists p ::
      && GetDatabaseURL(c) == c.database.username + ":" + c.database.password + "@tcp(" + c.database.host + ":"
           + p + ")/" + c.database.dbName + DsnOptions
      && Canonical(p) && Atoi(p) == Some(c.database.port)
  {
    var p := DecimalString(c.database.port);
    AtoiDecimalString(c.database.port);
    assert GetDatabaseURL(c) == c.database.username + ":" + c.database.password + "@tcp(" + c.database.host + ":"
           + p + ")/" + c.database.dbName + DsnOptions;
  }

  /** The charset the DSN asks for is `utf8mb4` whatever `DB_CHARSET` says. */
  lemma DatabaseUrlIgnoresCharset(c: Config, charset: string)
    ensures GetDatabaseURL(c.(database := c.database.(charset := charset))) == GetDatabaseURL(c)
  {
  }
}
