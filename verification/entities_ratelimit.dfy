/** `entities.RateLimit`: a named tier of request limits. */
module EntitiesRateLimit {
  import GoInts
  import SerdeDuration

  datatype RateLimit = RateLimit(
    id: string,
    limit: GoInts.Int64,
    burst: GoInts.Int64,
    refill: SerdeDuration.Duration)
}
