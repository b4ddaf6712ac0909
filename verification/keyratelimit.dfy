/** The `KeyRateLimit` middleware (`server/middleware/keyratelimit.go`): the
    key's rate-limit level is looked up, and the request draws from the
    key's bucket in that level's manager, which is loaded on first use. */
module KeyRateLimit {
  import opened Errors
  import opened Handler
  import EntitiesRateLimit
  import SyncManager
  import SyncSuite

  /** The decision for one request of `keyID` from `ip`. `first` is the
      answer of the level lookup; `second` and `load` are the answers of the
      two lookups made to build a missing manager. An error other than a
      missing key from `first` is not checked: its level decides. */
  function KeyRateLimit(suite: SyncSuite.Suite, keyID: string, ip: string,
                        first: (string, Option<Error>), second: (string, Option<Error>),
                        load: (EntitiesRateLimit.RateLimit, Option<Error>), grant: Grant)
    : (r: (Outcome, seq<Event>, SyncSuite.Suite))
    ensures first.1 == Some(ErrKeyMissing) ==>
      r == (Abort(403), [TierLookup(keyID), DrawOne(BadKeyIP, ip, grant)], suite)
    ensures first.1 != Some(ErrKeyMissing) && first.0 == "" ==> r == (Next, [TierLookup(keyID)], suite)
    ensures first.1 != Some(ErrKeyMissing) && first.0 != "" && first.0 in suite.managers ==>
      r.1 == [TierLookup(keyID), DrawOne(Tier(first.0), keyID, grant)]
    ensures (first.1 != Some(ErrKeyMissing) && first.0 != "" && first.0 !in suite.managers
      && (second.1.Some? || load.1.Some?)) ==> r.0 == Abort(500) && r.2 == suite && NoDraws(r.1)
    ensures (first.1 != Some(ErrKeyMissing) && first.0 != "" && first.0 !in suite.managers
      && second.1.None? && load.1.None?) ==> (
        r.1 == [TierLookup(keyID), TierLookup(keyID), RateLimitLookup(second.0), DrawOne(Tier(first.0), keyID, grant)]
        && first.0 in r.2.managers
        && r.2.managers[first.0].limit == load.0.limit && r.2.managers[first.0].reset == load.0.refill)
    ensures r.0 == Abort(429) <==> (first.1 != Some(ErrKeyMissing) && first.0 != ""
      && (first.0 in suite.managers || (second.1.None? && load.1.None?)) && !grant(Tier(first.0), keyID))
    ensures forall x :: x != first.0 ==> SyncSuite.GetManager(r.2, x) == SyncSuite.GetManager(suite, x)
  {
    var t := [TierLookup(keyID)];
    if first.1 == Some(ErrKeyMissing) then (Abort(403), [TierLookup(keyID), DrawOne(BadKeyIP, ip, grant)], suite)
    else
      var level := first.0;
      if level == "" then (Next, t, suite)
      else if level in suite.managers then
        var (o, e, s') := DrawFromLevel(suite, level, suite.managers[level], keyID, grant);
        (o, [TierLookup(keyID), e], s')
      else
        var t2 := [TierLookup(keyID), TierLookup(keyID)];
        if second.1.Some? then (Abort(500), t2, suite)
        else
          var t3 := [TierLookup(keyID), TierLookup(keyID), RateLimitLookup(second.0)];
          if load.1.Some? then (Abort(500), t3, suite)
          else
            var m := SyncManager.NewManager(load.0.limit, load.0.refill);
            var (o, e, s') := DrawFromLevel(SyncSuite.AddManager(suite, level, m), level, m, keyID, grant);
            (o, [TierLookup(keyID), TierLookup(keyID), RateLimitLookup(second.0), e], s')
  }

  /** An existing manager is reused with no lookup beyond the level's, and
      the key's bucket is created once and then kept: a second request of
      the same key draws from the same bucket. */
  lemma ExistingManagerReused(suite: SyncSuite.Suite, keyID: string, ip: string,
                              first: (string, Option<Error>), second: (string, Option<Error>),
                              load: (EntitiesRateLimit.RateLimit, Option<Error>), grant: Grant)
    requires first.1 != Some(ErrKeyMissing) && first.0 != "" && first.0 in suite.managers
    ensures var r := KeyRateLimit(suite, keyID, ip, first, second, load, grant);
      first.0 in r.2.managers
      && keyID in r.2.managers[first.0].buckets
      && SyncManager.GetBucket(r.2.managers[first.0], keyID).1 == r.2.managers[first.0]
  {
  }
}
