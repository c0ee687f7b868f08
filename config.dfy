/**
 * Version constants, enumerations and configuration records the retrieval
 * engine reads. Only the settings the modelled logic consults are kept.
 */
module Config {
  import opened Text

  const PARSER_VERSION: string := "1.0"
  const NORMALIZER_VERSION: string := "1.0"
  const SCHEMA_VERSION: string := "1.0"
  const TOKEN_VERSION: int := 1
  const ERROR_CATALOG_VERSION: string := "2026.02"

  /** The one output order the library defines; `OutputOrder` is a string enum. */
  const CANONICAL: string := "canonical"

  datatype CacheMode = IfStale | ForceRefresh | Off

  datatype ConsistencyMode = Strict | BestEffort {
    /** The enum's string value. */
    function Code(): string {
      if Strict? then "strict" else "best_effort"
    }
  }

  /** Retry settings (defaults: 5 attempts, 0.5 s base, 8 s cap, jitter 1.0, 403 retry off, 2 attempts on 403). */
  datatype RetryConfig = RetryConfig(
    maxAttempts: int,
    transportMaxAttempts: Option<int>,
    baseDelay: real,
    capDelay: real,
    jitterRatio: real,
    retryOn403: bool,
    retryOn403MaxAttempts: int)

  const DEFAULT_RETRY: RetryConfig := RetryConfig(5, None, 0.5, 8.0, 1.0, false, 2)

  /** The client settings the data service reads. */
  datatype ClientConfig = ClientConfig(
    baseUrl: string,
    strictApi: bool,
    autoSplitCodes: bool,
    consistencyMode: ConsistencyMode,
    conflictResolution: string,
    outputOrder: string,
    allowRawOverride: bool,
    captureFullResponse: bool,
    resolveWildcard: bool,
    cacheMode: CacheMode)
}
