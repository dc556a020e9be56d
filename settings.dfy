/**
 * The application settings: the token constants and the `field_validator`s that
 * assemble the CORS origin list, the PostgreSQL and Valkey URLs and the Celery URLs,
 * and the loading that runs them, in field order, on the values supplied and on the
 * defaults alike.
 */
module Settings {
  import opened Wrappers
  import opened Text

  const Algorithm: string := "HS256"
  const AccessTokenExpireMinutes: int := 30
  const RefreshTokenExpireDays: int := 7
  const DefaultPageSize: int := 20
  /** Declared, and never used by the list endpoints. */
  const MaxPageSize: int := 100

  const PostgresPort: string := "5432"
  const ValkeyHost: string := "localhost"
  const ValkeyPort: int := 6379
  const ValkeyDb: int := 0

  /** The token lifetimes in seconds. */
  lemma TokenDefaults()
    ensures Algorithm == "HS256"
    ensures AccessTokenExpireMinutes * 60 == 1800
    ensures RefreshTokenExpireDays * 24 * 60 * 60 == 604800
  {
  }

  // ---------------------------------------------------------------- CORS origins

  /** The raw value the `mode="before"` validator receives for BACKEND_CORS_ORIGINS, after any decoding by the settings source. */
  datatype Origins = OriginText(text: string) | OriginList(items: seq<string>) | OriginOther

  /** `[i.strip() for i in parts]` */
  function StripAll(parts: seq<string>): seq<string> {
    seq(|parts|, i requires 0 <= i < |parts| => Strip(parts[i]))
  }

  /** `assemble_cors_origins`: a string not starting with "[" is split on commas and each part stripped; a list or a "[" string passes; anything else raises ValueError. */
  function AssembleCorsOrigins(v: Origins): Result<Origins, string> {
    match v
    case OriginText(s) => if !StartsWith(s, "[") then Success(OriginList(StripAll(Split(s, ',')))) else Success(v)
    case OriginList(_) => Success(v)
    case OriginOther => Failure("ValueError")
  }

  /** A comma-separated string becomes one origin per comma-separated part, each without surrounding whitespace or a comma. */
  lemma CorsSplit(s: string)
    requires !StartsWith(s, "[")
    ensures AssembleCorsOrigins(OriginText(s)).Success?
    ensures var r := AssembleCorsOrigins(OriginText(s)).value;
      && r.OriginList? && |r.items| == |Split(s, ',')|
      && forall i :: 0 <= i < |r.items| ==> r.items[i] == Strip(Split(s, ',')[i]) && Strip(r.items[i]) == r.items[i] && ',' !in r.items[i]
  {
    var parts := Split(s, ',');
    var r := StripAll(parts);
    forall i | 0 <= i < |r| ensures Strip(r[i]) == r[i] && ',' !in r[i] {
      assert r[i] == Strip(parts[i]);
      StripPart(parts[i]);
    }
  }

  /** Stripping a part free of commas gives a stripped part free of commas. */
  lemma StripPart(p: string)
    requires ',' !in p
    ensures Strip(Strip(p)) == Strip(p) && ',' !in Strip(p)
  {
    StripIdempotent(p);
    var a, b := StripCore(p);
    forall k | 0 <= k < b - a ensures Strip(p)[k] != ',' {
      assert Strip(p)[k] == p[a + k];
    }
  }

  /** Given stripped origins free of commas joined with ",", the validator returns those origins in order. */
  lemma CorsRoundTrip(origins: seq<string>)
    requires |origins| >= 1
    requires forall i :: 0 <= i < |origins| ==> ',' !in origins[i] && Strip(origins[i]) == origins[i]
    requires !StartsWith(Join(origins, ','), "[")
    ensures AssembleCorsOrigins(OriginText(Join(origins, ','))) == Success(OriginList(origins))
  {
    var text := Join(origins, ',');
    SplitJoin(origins, ',');
    assert Split(text, ',') == origins;
    StrippedFixed(origins);
  }

  /** Parts that are already stripped are left as they are. */
  lemma StrippedFixed(parts: seq<string>)
    requires forall i :: 0 <= i < |parts| ==> Strip(parts[i]) == parts[i]
    ensures StripAll(parts) == parts
  {
    var r := StripAll(parts);
    assert |r| == |parts|;
    forall i | 0 <= i < |r| ensures r[i] == parts[i] {
      assert r[i] == Strip(parts[i]);
    }
  }

  /** A list, or a string that starts with "[", passes unchanged; any other value is a ValueError. */
  lemma CorsPassThrough(v: Origins)
    ensures v.OriginList? || (v.OriginText? && StartsWith(v.text, "[")) ==> AssembleCorsOrigins(v) == Success(v)
    ensures v.OriginOther? <==> AssembleCorsOrigins(v).Failure?
  {
  }

  // ---------------------------------------------------------------- database URL

  /** The POSTGRES_* settings the URL is built from. */
  datatype Postgres = Postgres(user: string, password: string, server: string, port: string, db: string)

  /** The credentials part: "user:password@", "user@" or nothing. */
  function DbAuth(pg: Postgres): string {
    if pg.user != "" && pg.password != "" then pg.user + ":" + pg.password + "@"
    else if pg.user != "" then pg.user + "@"
    else ""
  }

  /** `assemble_db_connection`: an explicit string is kept, else "postgresql://" + auth + host:port/db. */
  function AssembleDbConnection(v: Option<string>, pg: Postgres): string {
    match v
    case Some(uri) => uri
    case None => "postgresql://" + DbAuth(pg) + pg.server + ":" + pg.port + "/" + pg.db
  }

  /** The part of the URL after the credentials. */
  function DbLocation(pg: Postgres): string {
    pg.server + ":" + pg.port + "/" + pg.db
  }

  /**
   * The credentials can be read back off a built URL: splitting what follows the scheme on
   * "@" gives the location alone when there is no user, and otherwise "user" or
   * "user:password" before it, which splits on ":" into the user and the password.
   */
  lemma DbUriCredentials(pg: Postgres)
    requires '@' !in pg.user && '@' !in pg.password && '@' !in pg.server && '@' !in pg.port && '@' !in pg.db
    requires ':' !in pg.user && ':' !in pg.password
    ensures var uri := AssembleDbConnection(None, pg);
      && StartsWith(uri, "postgresql://")
      && Split(uri[13..], '@') ==
           (if pg.user == "" then [DbLocation(pg)]
            else if pg.password == "" then [pg.user, DbLocation(pg)]
            else [pg.user + ":" + pg.password, DbLocation(pg)])
      && (pg.user != "" && pg.password != "" ==> Split(pg.user + ":" + pg.password, ':') == [pg.user, pg.password])
  {
    var uri := AssembleDbConnection(None, pg);
    var loc := DbLocation(pg);
    assert uri == "postgresql://" + (DbAuth(pg) + loc);
    assert uri[13..] == DbAuth(pg) + loc;
    assert '@' !in loc;
    if pg.user == "" {
      assert DbAuth(pg) + loc == loc;
      SplitNoSep(loc, '@');
    } else {
      var cred := if pg.password == "" then pg.user else pg.user + ":" + pg.password;
      assert '@' !in cred;
      assert DbAuth(pg) + loc == Join([cred, loc], '@');
      SplitJoin([cred, loc], '@');
      if pg.password != "" {
        assert cred == Join([pg.user, pg.password], ':');
        SplitJoin([pg.user, pg.password], ':');
      }
    }
  }

  // ---------------------------------------------------------------- Valkey and Celery

  /** The VALKEY_* settings the URL is built from. */
  datatype Valkey = Valkey(password: Option<string>, host: string, port: int, db: int)

  /** `assemble_valkey_connection`: an explicit string is kept, else "redis://" + (":password@" if a password is set) + host:port/db. */
  function AssembleValkeyConnection(v: Option<string>, vk: Valkey): string {
    match v
    case Some(url) => url
    case None =>
      var auth := if vk.password.Some? && vk.password.value != "" then ":" + vk.password.value + "@" else "";
      "redis://" + auth + ValkeyLocation(vk)
  }

  /** The part of the URL after the credentials. */
  function ValkeyLocation(vk: Valkey): string {
    vk.host + ":" + IntToString(vk.port) + "/" + IntToString(vk.db)
  }

  /** The default port's decimal text. */
  lemma DefaultPortText()
    ensures IntToString(ValkeyPort) == "6379" && IntToString(ValkeyDb) == "0"
  {
    assert DigitChar(0) == '0' && DigitChar(6) == '6' && DigitChar(3) == '3' && DigitChar(7) == '7' && DigitChar(9) == '9';
    assert NatToString(6) == ['6'];
    assert NatToString(63) == ['6', '3'];
    assert NatToString(637) == ['6', '3', '7'];
    assert NatToString(6379) == ['6', '3', '7', '9'];
  }

  /** The Valkey settings' defaults give the local server's database 0. */
  lemma ValkeyDefaults()
    ensures AssembleValkeyConnection(None, Valkey(None, ValkeyHost, ValkeyPort, ValkeyDb)) == "redis://localhost:6379/0"
  {
    DefaultPortText();
    var port, db := IntToString(ValkeyPort), IntToString(ValkeyDb);
    assert AssembleValkeyConnection(None, Valkey(None, ValkeyHost, ValkeyPort, ValkeyDb)) == "redis://" + "" + "localhost" + ":" + port + "/" + db;
    assert "redis://" + "" + "localhost" + ":" + port + "/" + db == "redis://localhost:6379/0";
  }

  lemma NoAtInLocation(vk: Valkey)
    requires '@' !in vk.host
    ensures '@' !in ValkeyLocation(vk)
  {
    var p, d := IntToString(vk.port), IntToString(vk.db);
    assert '@' !in p && '@' !in d;
  }

  /** A built Valkey URL carries credentials ("@" after the scheme) exactly when a non-empty password is set. */
  lemma ValkeyPasswordIff(vk: Valkey)
    requires '@' !in vk.host
    ensures var url := AssembleValkeyConnection(None, vk);
      && StartsWith(url, "redis://")
      && ('@' in url[8..] <==> vk.password.Some? && vk.password.value != "")
      && (vk.password.Some? && vk.password.value != "" && '@' !in vk.password.value ==>
            Split(url[8..], '@')[0] == ":" + vk.password.value)
  {
    var url := AssembleValkeyConnection(None, vk);
    var loc := ValkeyLocation(vk);
    NoAtInLocation(vk);
    if vk.password.Some? && vk.password.value != "" {
      var auth := ":" + vk.password.value + "@";
      assert url == "redis://" + (auth + loc);
      assert url[8..] == auth + loc;
      assert url[8..][|auth| - 1] == '@';
      if '@' !in vk.password.value {
        var cred := ":" + vk.password.value;
        assert '@' !in cred;
        assert url[8..] == Join([cred, loc], '@');
        SplitJoin([cred, loc], '@');
      }
    } else {
      assert url == "redis://" + loc;
      assert url[8..] == loc;
    }
  }

  /** `assemble_celery_broker` and `assemble_celery_backend`: an explicit string is kept, else the URL is VALKEY_URL's value. */
  function AssembleCeleryUrl(v: Option<string>, valkeyUrl: Option<string>): Option<string> {
    if v.Some? then v else valkeyUrl
  }

  // ---------------------------------------------------------------- loading

  /** What the environment (or the constructor) supplies for an optional setting: nothing, or a value that may be None. */
  datatype Supplied = Unset | Given(value: Option<string>)

  datatype Sources = Sources(
    databaseUri: Supplied, valkeyUrl: Supplied, celeryBroker: Supplied, celeryBackend: Supplied,
    pg: Postgres, vk: Valkey)

  datatype Loaded = Loaded(databaseUri: Option<string>, valkeyUrl: Option<string>, celeryBroker: Option<string>, celeryBackend: Option<string>)

  /** The value a validator sees when it runs on a field left unset: the default None. */
  function Seen(s: Supplied): Option<string> {
    if s.Unset? then None else s.value
  }

  /**
   * `Settings()`: `BaseSettings` validates defaults, so every URL validator runs, on
   * the value supplied or on the default None; the Celery validators see the Valkey
   * URL already assembled, since that field is declared before them.
   */
  function Load(src: Sources): Loaded {
    var valkey := Some(AssembleValkeyConnection(Seen(src.valkeyUrl), src.vk));
    Loaded(
      Some(AssembleDbConnection(Seen(src.databaseUri), src.pg)), valkey,
      AssembleCeleryUrl(Seen(src.celeryBroker), valkey), AssembleCeleryUrl(Seen(src.celeryBackend), valkey))
  }

  /**
   * After loading, every URL is a string: the database and Valkey URLs are assembled,
   * and Celery's broker and backend fall back to the Valkey URL.
   */
  lemma LoadAssembles(src: Sources)
    requires src.celeryBroker.Unset? && src.celeryBackend.Unset?
    ensures var c := Load(src);
      && c.databaseUri == Some(AssembleDbConnection(Seen(src.databaseUri), src.pg))
      && c.valkeyUrl.Some?
      && c.celeryBroker == c.valkeyUrl && c.celeryBackend == c.valkeyUrl
  {
  }

  /**
   * An environment that sets the POSTGRES_* values and none of the four URLs, with
   * the Valkey defaults, gives the assembled database URL and the local Valkey URL,
   * which Celery's broker and backend both use.
   */
  lemma UnsetUrlsAssembled(pg: Postgres)
    ensures Load(Sources(Unset, Unset, Unset, Unset, pg, Valkey(None, ValkeyHost, ValkeyPort, ValkeyDb))) ==
      Loaded(Some("postgresql://" + DbAuth(pg) + DbLocation(pg)), Some("redis://localhost:6379/0"),
             Some("redis://localhost:6379/0"), Some("redis://localhost:6379/0"))
  {
    ValkeyDefaults();
    assert "postgresql://" + DbAuth(pg) + pg.server + ":" + pg.port + "/" + pg.db == "postgresql://" + DbAuth(pg) + DbLocation(pg);
  }
}
