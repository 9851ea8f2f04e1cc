/** Per-client configuration, its validation, and the outcome of one request. */
module Configs {
  import opened Wrappers

  const ALGORITHM_TOKEN_BUCKET := "token_bucket"
  const ALGORITHM_SLIDING_WINDOW := "sliding_window"

  datatype Config = Config(rps: real, burst: real, algorithm: string)

  datatype ConfigError = RpsNotPositive | BurstBelowOne | UnsupportedAlgorithm

  /** Applied to a client that has no stored configuration. */
  const DEFAULT_CONFIG := Config(1.0, 5.0, ALGORITHM_TOKEN_BUCKET)

  /** Reports the first problem found, in the order rate, burst, algorithm. */
  function Validate(c: Config): (r: Result<(), ConfigError>)
    ensures r.Success? <==> Valid(c)
    ensures r == Failure(RpsNotPositive) <==> c.rps <= 0.0
    ensures r == Failure(BurstBelowOne) <==> c.rps > 0.0 && c.burst < 1.0
    ensures r == Failure(UnsupportedAlgorithm)
       <==> c.rps > 0.0 && c.burst >= 1.0 && c.algorithm !in {ALGORITHM_TOKEN_BUCKET, ALGORITHM_SLIDING_WINDOW}
  {
    if c.rps <= 0.0 then
      Failure(RpsNotPositive)
    else if c.burst < 1.0 then
      Failure(BurstBelowOne)
    else if c.algorithm != ALGORITHM_TOKEN_BUCKET && c.algorithm != ALGORITHM_SLIDING_WINDOW then
      Failure(UnsupportedAlgorithm)
    else
      Success(())
  }

  /** What the limiter theorems ask of a configuration. */
  predicate Valid(c: Config) {
    && c.rps > 0.0
    && c.burst >= 1.0
    && c.algorithm in {ALGORITHM_TOKEN_BUCKET, ALGORITHM_SLIDING_WINDOW}
  }

  /** The outcome of one request; the two waits are in nanoseconds. */
  datatype Decision = Decision(allowed: bool, limit: real, remaining: int, retryAfter: int, resetAfter: int)
}
