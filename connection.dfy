/**
 * The part of the RethinkDB driver's `Connection.Builder` that the
 * configuration sets, and the configuration record itself.
 */
module RethinkConnection {
  import opened Wrappers

  /** C#'s `int`. */
  newtype int32 = x: int | -0x8000_0000 <= x < 0x8000_0000

  /** The five builder settings; None keeps the driver's own default. */
  datatype Builder = Builder(
    hostname: Option<string>,
    port: Option<int32>,
    authKey: Option<string>,
    db: Option<string>,
    timeout: Option<int32>)
  {
    /** Each setter replaces its own field and nothing else. */
    function Hostname(h: string): Builder { this.(hostname := Some(h)) }
    function Port(p: int32): Builder { this.(port := Some(p)) }
    function AuthKey(k: string): Builder { this.(authKey := Some(k)) }
    function Db(d: string): Builder { this.(db := Some(d)) }
    function Timeout(t: int32): Builder { this.(timeout := Some(t)) }
  }

  /** `RethinkDB.R.Connection()`: a builder with every setting at the driver's default. */
  function Connection(): Builder
  {
    Builder(None, None, None, None, None)
  }

  /**
   * The `DataConfig` properties: a null string is None, and an `int` left
   * at 0 means "not set".
   */
  datatype DataConfig = DataConfig(
    hostname: Option<string>,
    port: int32,
    authKey: Option<string>,
    timeout: int32,
    database: Option<string>)

  /** The builder settings, named. */
  datatype Setting = HostnameSetting | PortSetting | AuthKeySetting | DbSetting | TimeoutSetting

  /** The order in which the configuration is applied. */
  const SettingOrder := [HostnameSetting, PortSetting, AuthKeySetting, DbSetting, TimeoutSetting]

  /** Whether `config` overrides `setting`: a non-null string, a non-zero number. */
  predicate Overrides(config: DataConfig, setting: Setting)
  {
    match setting
    case HostnameSetting => config.hostname.Some?
    case PortSetting => config.port != 0
    case AuthKeySetting => config.authKey.Some?
    case DbSetting => config.database.Some?
    case TimeoutSetting => config.timeout != 0
  }

  /** `b` holds the value `config` gives `setting`. */
  predicate Carries(config: DataConfig, b: Builder, setting: Setting)
  {
    match setting
    case HostnameSetting => b.hostname == config.hostname
    case PortSetting => b.port == Some(config.port)
    case AuthKeySetting => b.authKey == config.authKey
    case DbSetting => b.db == config.database
    case TimeoutSetting => b.timeout == Some(config.timeout)
  }

  /** `b` and `b'` agree on every setting except perhaps `setting`. */
  predicate SameExcept(b: Builder, b': Builder, setting: Setting)
  {
    && (setting != HostnameSetting ==> b'.hostname == b.hostname)
    && (setting != PortSetting ==> b'.port == b.port)
    && (setting != AuthKeySetting ==> b'.authKey == b.authKey)
    && (setting != DbSetting ==> b'.db == b.db)
    && (setting != TimeoutSetting ==> b'.timeout == b.timeout)
  }

  /**
   * What a configured builder must hold: every overridden setting carries
   * the configured value, and every other one is still the driver default.
   */
  predicate ConfiguredFrom(config: DataConfig, b: Builder)
  {
    && b.hostname == (if config.hostname.Some? then config.hostname else Connection().hostname)
    && b.port == (if config.port != 0 then Some(config.port) else Connection().port)
    && b.authKey == (if config.authKey.Some? then config.authKey else Connection().authKey)
    && b.db == (if config.database.Some? then config.database else Connection().db)
    && b.timeout == (if config.timeout != 0 then Some(config.timeout) else Connection().timeout)
  }

  /** Nothing set: the configured builder is the default one. */
  lemma ConfiguredFromUnset(b: Builder)
    requires ConfiguredFrom(DataConfig(None, 0, None, 0, None), b)
    ensures b == Connection()
  {
  }
}
