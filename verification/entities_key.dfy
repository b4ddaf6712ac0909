/** `entities.Key`: an access key presented by clients. */
module EntitiesKey {
  import SerdeTime

  datatype Key = Key(
    id: string,
    comment: string,
    rateLimit: string,          // the rate-limit tier of the key; "" for none
    roles: seq<string>,
    expiresAt: SerdeTime.Time,
    createdAt: SerdeTime.Time)

  /** `Key.IsExpired`, with the wall clock passed in as `now`: an expiry at the
      epoch means "never"; otherwise the key is expired once the elapsed time
      since the expiry is strictly positive. */
  function IsExpired(k: Key, now: SerdeTime.Time): (expired: bool)
    ensures SerdeTime.UnixNano(k.expiresAt) == 0 ==> !expired
    ensures SerdeTime.UnixNano(k.expiresAt) != 0 ==> (expired <==> now > k.expiresAt)
  {
    if SerdeTime.UnixNano(k.expiresAt) == 0 then false
    else SerdeTime.Sub(now, k.expiresAt) > 0
  }

  /** A key is still valid at the very instant it expires. */
  lemma NotExpiredAtExpiry(k: Key)
    ensures !IsExpired(k, k.expiresAt)
  {
  }

  /** Once expired, a key stays expired as the clock moves forward. */
  lemma ExpiryMonotone(k: Key, t1: SerdeTime.Time, t2: SerdeTime.Time)
    requires t1 <= t2 && IsExpired(k, t1)
    ensures IsExpired(k, t2)
  {
  }
}
