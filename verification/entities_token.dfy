/** `entities.Token`: an administrator API token. */
module EntitiesToken {
  import SerdeTime

  datatype Token = Token(
    id: string,
    comment: string,
    expiresAt: SerdeTime.Time,
    createdAt: SerdeTime.Time)

  /** `Token.IsExpired`, with the wall clock passed in as `now`. */
  function IsExpired(t: Token, now: SerdeTime.Time): (expired: bool)
    ensures SerdeTime.UnixNano(t.expiresAt) == 0 ==> !expired
    ensures SerdeTime.UnixNano(t.expiresAt) != 0 ==> (expired <==> now > t.expiresAt)
  {
    if SerdeTime.UnixNano(t.expiresAt) == 0 then false
    else SerdeTime.Sub(now, t.expiresAt) > 0
  }

  /** A token is still valid at the very instant it expires. */
  lemma NotExpiredAtExpiry(t: Token)
    ensures !IsExpired(t, t.expiresAt)
  {
  }

  /** Token expiry is monotone in the clock. */
  lemma ExpiryMonotone(t: Token, t1: SerdeTime.Time, t2: SerdeTime.Time)
    requires t1 <= t2 && IsExpired(t, t1)
    ensures IsExpired(t, t2)
  {
  }
}
