/**
 * The second application's settings. Its CORS, Valkey and Celery validators are
 * those of `Settings` word for word; its database URL is built by the DSN library
 * instead of by string formatting, so the builder is a parameter here.
 */
module XdmsSettings {
  import opened Wrappers
  import opened Text
  import Settings

  /**
   * `PostgresDsn.build(scheme=, user=, password=, host=, port=, path=)`: the library's
   * URL builder, taken as given.
   */
  datatype DsnBuilder = DsnBuilder(build: (string, string, string, string, string, string) -> string)

  /** The `path` argument: "/" followed by the database name ("" when it is unset). */
  function DbPath(db: string): (p: string)
    ensures |p| == |db| + 1 && p[0] == '/' && p[1..] == db
  {
    "/" + db
  }

  /** `assemble_db_connection`: an explicit string is kept, else the DSN built from the POSTGRES_* settings. */
  function AssembleDbConnection(v: Option<string>, dsn: DsnBuilder, pg: Settings.Postgres): string {
    match v
    case Some(uri) => uri
    case None => dsn.build("postgresql", pg.user, pg.password, pg.server, pg.port, DbPath(pg.db))
  }

  /**
   * An explicit URI is returned unchanged, whatever the POSTGRES_* settings and the
   * builder; without one, the builder is asked for a "postgresql" URL to the configured
   * server and port, with the configured credentials and the database as the path.
   */
  lemma DbConnectionCases(v: Option<string>, dsn: DsnBuilder, pg: Settings.Postgres, other: Settings.Postgres, otherDsn: DsnBuilder)
    ensures v.Some? ==> AssembleDbConnection(v, dsn, pg) == v.value == AssembleDbConnection(v, otherDsn, other)
    ensures v.None? ==>
      exists path :: |path| == |pg.db| + 1 && path[0] == '/' && path[1..] == pg.db &&
        AssembleDbConnection(v, dsn, pg) == dsn.build("postgresql", pg.user, pg.password, pg.server, pg.port, path)
  {
    if v.None? {
      var path := DbPath(pg.db);
    }
  }

  /**
   * `Settings()`: pydantic v1 `BaseSettings` sets `validate_all`, and a `pre=True`
   * validator runs before the None check, so every URL validator runs, on the value
   * supplied or on the default None, in field order.
   */
  function Load(src: Settings.Sources, dsn: DsnBuilder): Settings.Loaded {
    var valkey := Some(Settings.AssembleValkeyConnection(Settings.Seen(src.valkeyUrl), src.vk));
    Settings.Loaded(
      Some(AssembleDbConnection(Settings.Seen(src.databaseUri), dsn, src.pg)), valkey,
      Settings.AssembleCeleryUrl(Settings.Seen(src.celeryBroker), valkey),
      Settings.AssembleCeleryUrl(Settings.Seen(src.celeryBackend), valkey))
  }

  /**
   * After loading, every URL is a string: an unset database URL is the builder's, the
   * Valkey URL is assembled, and Celery's broker and backend fall back to it.
   */
  lemma LoadAssembles(src: Settings.Sources, dsn: DsnBuilder)
    ensures var c := Load(src, dsn);
      && c.valkeyUrl == Some(Settings.AssembleValkeyConnection(Settings.Seen(src.valkeyUrl), src.vk))
      && (src.databaseUri.Unset? ==> c.databaseUri == Some(dsn.build("postgresql", src.pg.user, src.pg.password, src.pg.server, src.pg.port, "/" + src.pg.db)))
      && (src.celeryBroker.Unset? ==> c.celeryBroker == c.valkeyUrl)
      && (src.celeryBackend.Unset? ==> c.celeryBackend == c.valkeyUrl)
  {
  }

  /**
   * An environment that sets the POSTGRES_* values and none of the four URLs, with
   * the Valkey defaults, gives the built database URL and the local Valkey URL, which
   * Celery's broker and backend both use.
   */
  lemma UnsetUrlsAssembled(pg: Settings.Postgres, dsn: DsnBuilder)
    ensures Load(Settings.Sources(Settings.Unset, Settings.Unset, Settings.Unset, Settings.Unset, pg,
                                  Settings.Valkey(None, Settings.ValkeyHost, Settings.ValkeyPort, Settings.ValkeyDb)), dsn) ==
      Settings.Loaded(Some(dsn.build("postgresql", pg.user, pg.password, pg.server, pg.port, "/" + pg.db)),
        Some("redis://localhost:6379/0"), Some("redis://localhost:6379/0"), Some("redis://localhost:6379/0"))
  {
    Settings.ValkeyDefaults();
  }
}
