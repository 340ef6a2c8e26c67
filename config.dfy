/** The service configuration read from environment variables
    (internal/config/config.go).  The process environment is a map from
    variable name to value; a name missing from the map is unset. */
module Config {
  import opened Wrappers
  import opened StrConv

  type Environment = map<string, string>

  /** os.Getenv: the value, or "" when the variable is unset. */
  function Getenv(e: Environment, key: string): string {
    if key in e then e[key] else ""
  }

  /** `env`: the variable when it is set to a non-empty value, otherwise
      the fallback; a variable set to "" counts as unset. */
  function Env(e: Environment, key: string, fallback: string): (r: string)
    ensures key in e && e[key] != "" ==> r == e[key]
    ensures !(key in e && e[key] != "") ==> r == fallback
    ensures r == "" ==> fallback == ""
  {
    var v := Getenv(e, key);
    if v != "" then v else fallback
  }

  /** `envInt` and `envInt64` (the same on a 64-bit platform): the parsed
      variable, or the fallback when it is unset, empty or not a decimal
      64-bit integer. */
  function EnvInt(e: Environment, key: string, fallback: int): (r: int)
    ensures Atoi(Getenv(e, key)).Some? ==> r == Atoi(Getenv(e, key)).value
    ensures Atoi(Getenv(e, key)).None? ==> r == fallback
    ensures key !in e || e[key] == "" ==> r == fallback
  {
    var v := Getenv(e, key);
    if v != "" then
      match Atoi(v)
      case Some(i) => i
      case None => fallback
    else fallback
  }

  /** `envBool`: the parsed variable, or the fallback when it is unset,
      empty or not one of the spellings strconv.ParseBool accepts. */
  function EnvBool(e: Environment, key: string, fallback: bool): (r: bool)
    ensures ParseBool(Getenv(e, key)).Some? ==> r == ParseBool(Getenv(e, key)).value
    ensures ParseBool(Getenv(e, key)).None? ==> r == fallback
  {
    var v := Getenv(e, key);
    if v != "" then
      match ParseBool(v)
      case Some(b) => b
      case None => fallback
    else fallback
  }

  /** Written by some deployment tooling when no URL was configured; it is
      treated like an absent URL. */
  const EmptyPostgresUrl: string := "postgres:///?sslmode=disable"

  /** `buildPostgresURL`: VALVX_API_POSTGRES_URL verbatim, unless it is empty
      or the placeholder above; otherwise a URL assembled from the libpq
      variables with their defaults. */
  function BuildPostgresUrl(e: Environment): (r: string)
    ensures var explicit := Getenv(e, "VALVX_API_POSTGRES_URL");
      explicit != "" && explicit != EmptyPostgresUrl ==> r == explicit
    ensures var explicit := Getenv(e, "VALVX_API_POSTGRES_URL");
      (explicit == "" || explicit == EmptyPostgresUrl) ==>
        r == "postgres://" + Env(e, "PGUSER", "valvx") + ":" + Env(e, "PGPASSWORD", "") +
             "@" + Env(e, "PGHOST", "127.0.0.1") + ":" + Env(e, "PGPORT", "5432") +
             "/" + Env(e, "PGDATABASE", "valvx") + "?sslmode=disable"
  {
    var explicit := Getenv(e, "VALVX_API_POSTGRES_URL");
    if explicit != "" && explicit != EmptyPostgresUrl then explicit
    else
      var host := Env(e, "PGHOST", "127.0.0.1");
      var port := Env(e, "PGPORT", "5432");
      var user := Env(e, "PGUSER", "valvx");
      var pass := Env(e, "PGPASSWORD", "");
      var dbname := Env(e, "PGDATABASE", "valvx");
      "postgres://" + user + ":" + pass + "@" + host + ":" + port + "/" + dbname + "?sslmode=disable"
  }

  datatype Settings = Settings(
    bindHost: string,
    bindPort: int,
    corsAllowedOrigins: string,
    sessionCookieDomain: string,
    sessionCookieSecure: bool,
    sessionCookieSameSite: string,
    postgresUrl: string,
    blobstorUrl: string,
    blobstorServer: string,
    blobstorBucket: string,
    awsAccessKeyId: string,
    awsSecretAccessKey: string,
    speckleUrl: string,
    speckleInternalUrl: string,
    speckleProjectId: string,
    speckleApiToken: string,
    speckleProxyEnabled: bool,
    tusEnabled: bool,
    tusMaxSize: int,
    tusChunkSize: int,
    passwordPepper: string,
    mailgunApiKey: string,
    migrationsDir: string)

  const DefaultBindPort: int := 4000
  const DefaultTusMaxSize: int := 5 * 1024 * 1024 * 1024    // 5 GiB
  const DefaultTusChunkSize: int := 5 * 1024 * 1024         // 5 MiB

  /** `Load`: every setting from its variable, with its fallback. */
  function Load(e: Environment): Settings
  {
    Settings(
      bindHost := Env(e, "VALVX_API_SERVER_BIND_HOST", "127.0.0.1"),
      bindPort := EnvInt(e, "VALVX_API_SERVER_BIND_PORT", DefaultBindPort),
      corsAllowedOrigins := Env(e, "VALVX_API_SERVER_CORS_ALLOWED_ORIGINS", "https://app.valvx.se"),
      sessionCookieDomain := Env(e, "VALVX_API_SERVER_SESSION_COOKIE_DOMAIN", "valvx.se"),
      sessionCookieSecure := EnvBool(e, "VALVX_API_SERVER_SESSION_COOKIE_SECURE", true),
      sessionCookieSameSite := Env(e, "VALVX_API_SERVER_SESSION_COOKIE_SAME_SITE", "Default"),
      postgresUrl := BuildPostgresUrl(e),
      blobstorUrl := Env(e, "VALVX_API_BLOBSTOR_URL", "s3://?s3ForcePathStyle=true"),
      blobstorServer := Env(e, "VALVX_API_BLOBSTOR_SERVER", "https://storage.valvx.se"),
      blobstorBucket := Env(e, "VALVX_API_BLOBSTOR_BUCKET", "valvx"),
      awsAccessKeyId := Env(e, "AWS_ACCESS_KEY_ID", ""),
      awsSecretAccessKey := Env(e, "AWS_SECRET_ACCESS_KEY", ""),
      speckleUrl := Env(e, "VALVX_API_SPECKLE_URL", "https://speckle.valvx.se"),
      speckleInternalUrl := Env(e, "VALVX_API_SPECKLE_INTERNAL_URL", "http://127.0.0.1:8080"),
      speckleProjectId := Env(e, "VALVX_API_SPECKLE_PROJECT_ID", ""),
      speckleApiToken := Env(e, "VALVX_API_SPECKLE_API_TOKEN", ""),
      speckleProxyEnabled := EnvBool(e, "VALVX_API_SPECKLE_PROXY_ENABLED", false),
      tusEnabled := EnvBool(e, "VALVX_API_TUS_ENABLED", true),
      tusMaxSize := EnvInt(e, "VALVX_API_TUS_MAX_SIZE", DefaultTusMaxSize),
      tusChunkSize := EnvInt(e, "VALVX_API_TUS_CHUNK_SIZE", DefaultTusChunkSize),
      passwordPepper := Env(e, "VALVX_API_PASSWORD_PEPPER", ""),
      mailgunApiKey := Env(e, "VALVX_API_MAILGUN_API_KEY", ""),
      migrationsDir := Env(e, "VALVX_API_MIGRATIONS_DIR", "/app/migrations"))
  }

  /** With nothing set, the service listens on 127.0.0.1:4000, accepts
      uploads of up to 5 GiB in 5 MiB chunks, and has TUS enabled and the
      Speckle proxy disabled. */
  lemma DefaultsWhenUnset()
    ensures Load(map[]).bindHost == "127.0.0.1"
    ensures Load(map[]).bindPort == 4000
    ensures Load(map[]).tusMaxSize == 5_368_709_120
    ensures Load(map[]).tusChunkSize == 5_242_880
    ensures Load(map[]).tusEnabled
    ensures !Load(map[]).speckleProxyEnabled
  {
    var c := Load(map[]);
    assert c.bindHost == Env(map[], "VALVX_API_SERVER_BIND_HOST", "127.0.0.1");
  }

  /** With no PostgreSQL variable set, the URL names the local `valvx`
      database as user `valvx` with an empty password. */
  lemma DefaultPostgresUrl()
    ensures BuildPostgresUrl(map[]) == "postgres://valvx:@" + "127.0.0.1:5432/" + "valvx?sslmode=disable"
  {
    assert Getenv(map[], "VALVX_API_POSTGRES_URL") == "";
    assert "postgres://" + "valvx" + ":" + "" + "@" == "postgres://valvx:@";
    assert "127.0.0.1" + ":" + "5432" + "/" == "127.0.0.1:5432/";
    assert "valvx" + "?sslmode=disable" == "valvx?sslmode=disable";
  }

  /** A variable set to the decimal form of a 64-bit integer is read back as
      that integer, whatever the fallback. */
  lemma EnvIntReadsFormatted(e: Environment, key: string, n: int, fallback: int)
    requires MinInt64 <= n <= MaxInt64
    ensures EnvInt(e[key := FormatInt(n)], key, fallback) == n
  {
    ParseFormat(n);
  }

  /** A value that is not a decimal integer leaves the fallback in place;
      a bare sign and a fractional number are two such values. */
  lemma EnvIntRejects(e: Environment, key: string, fallback: int)
    ensures EnvInt(e[key := "+"], key, fallback) == fallback
    ensures EnvInt(e[key := "4.5"], key, fallback) == fallback
  {
    assert !AllDigits("4.5") by { assert !IsDigit("4.5"[1]); }
  }

  /** A PostgreSQL URL given explicitly wins over the libpq variables. */
  lemma ExplicitUrlWins(e: Environment, url: string)
    requires url != "" && url != EmptyPostgresUrl
    ensures BuildPostgresUrl(e["VALVX_API_POSTGRES_URL" := url]) == url
  {
    assert Getenv(e["VALVX_API_POSTGRES_URL" := url], "VALVX_API_POSTGRES_URL") == url;
  }

  /** The placeholder URL counts as no URL: the libpq variables are used. */
  lemma PlaceholderUrlIgnored(e: Environment)
    ensures BuildPostgresUrl(e["VALVX_API_POSTGRES_URL" := EmptyPostgresUrl]) ==
            BuildPostgresUrl(e["VALVX_API_POSTGRES_URL" := ""])
  {
    var p := e["VALVX_API_POSTGRES_URL" := EmptyPostgresUrl];
    var q := e["VALVX_API_POSTGRES_URL" := ""];
    assert Getenv(p, "VALVX_API_POSTGRES_URL") == EmptyPostgresUrl;
    assert Getenv(q, "VALVX_API_POSTGRES_URL") == "";
    assert Env(p, "PGUSER", "valvx") == Env(q, "PGUSER", "valvx");
    assert Env(p, "PGPASSWORD", "") == Env(q, "PGPASSWORD", "");
    assert Env(p, "PGHOST", "127.0.0.1") == Env(q, "PGHOST", "127.0.0.1");
    assert Env(p, "PGPORT", "5432") == Env(q, "PGPORT", "5432");
    assert Env(p, "PGDATABASE", "valvx") == Env(q, "PGDATABASE", "valvx");
  }
}
