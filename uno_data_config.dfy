/**
 * The ASP.NET Core application's `DataConfig.CreateConnection`: five
 * sequential `if`s on a local builder (`Connect()` is not part of this model).
 */
module UnoDataConfig {
  import opened RethinkConnection
  import DosDataConfig

  /** The builder handed to `Connect()`; it is the one the Nancy fold builds from the same settings. */
  method CreateConnection(config: DataConfig) returns (conn: Builder)
    ensures ConfiguredFrom(config, conn)
    ensures conn == DosDataConfig.CreateConnection(config)
  {
    conn := Connection();
    if config.hostname.Some? { conn := conn.Hostname(config.hostname.value); }
    if config.port != 0 { conn := conn.Port(config.port); }
    if config.authKey.Some? { conn := conn.AuthKey(config.authKey.value); }
    if config.database.Some? { conn := conn.Db(config.database.value); }
    if config.timeout != 0 { conn := conn.Timeout(config.timeout); }
  }
}
