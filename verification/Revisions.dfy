/** The ClickHouse protocol revisions that introduced what the codecs gate on. */
module Revisions {
  const TIMEZONE := 54058
  const QUOTA_KEY_IN_CLIENT_INFO := 54060
  const DISPLAY_NAME := 54372
  const VERSION_PATCH := 54401
  const CLIENT_WRITE_INFO := 54420
  const SETTINGS_AS_STRINGS := 54429
  const INTER_SERVER_SECRET := 54441
  const OPEN_TELEMETRY := 54442
  const DISTRIBUTED_DEPTH := 54448
  const QUERY_START_TIME := 54449
  const PARALLEL_REPLICAS := 54453
  const ADDENDUM := 54458
  const PARAMETERS := 54459
  const SERVER_QUERY_TIME := 54460
  const PASSWORD_RULES := 54461
  const INTERSERVER_NONCE := 54462
  const TOTAL_BYTES := 54463
  const TABLE_READ_ONLY := 54467
  const ROWS_BEFORE_AGGREGATION := 54469
  const CHUNKED_PACKETS := 54470
  const VERSIONED_PARALLEL_REPLICAS := 54471
  const EXTERNALLY_GRANTED_ROLES := 54472
  const QUERY_AND_LINE_NUMBERS := 54475
  const INTERSERVER_JWT := 54476
  const COMPRESSED_LOGS := 54481

  /** The newest revision the proxy's codec models. */
  const MAX_SUPPORTED := CHUNKED_PACKETS
}
