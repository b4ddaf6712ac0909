/** The `RateLimit` middleware (`server/middleware/ratelimit.go`): requests
    of an authenticated key draw from the bucket of that key in the manager
    of the key's rate-limit level, which is loaded and registered on first
    use. */
module RateLimitMiddleware {
  import opened Errors
  import opened Handler
  import EntitiesKey
  import EntitiesRateLimit
  import SyncManager
  import SyncSuite

  /** The decision for one request of `key`; `load` is the rate-limit
      store's answer for the key's level, consulted only when no manager is
      registered for it. */
  function RateLimit(suite: SyncSuite.Suite, key: EntitiesKey.Key, load: (EntitiesRateLimit.RateLimit, Option<Error>), grant: Grant)
    : (r: (Outcome, seq<Event>, SyncSuite.Suite))
    ensures key.rateLimit == "" ==> r == (Next, [], suite)
    ensures key.rateLimit != "" && key.rateLimit in suite.managers ==>
      r.1 == [DrawOne(Tier(key.rateLimit), key.id, grant)]
    ensures key.rateLimit != "" && key.rateLimit !in suite.managers && load.1.Some? ==>
      r == (Abort(500), [RateLimitLookup(key.rateLimit)], suite)
    ensures key.rateLimit != "" && key.rateLimit !in suite.managers && load.1.None? ==> (
      r.1 == [RateLimitLookup(key.rateLimit), DrawOne(Tier(key.rateLimit), key.id, grant)]
      && key.rateLimit in r.2.managers
      && r.2.managers[key.rateLimit].limit == load.0.limit
      && r.2.managers[key.rateLimit].reset == load.0.refill)
    ensures r.0 == Next <==> (key.rateLimit == ""
      || ((key.rateLimit in suite.managers || load.1.None?) && grant(Tier(key.rateLimit), key.id)))
    ensures r.0 == Abort(429) <==> (key.rateLimit != ""
      && (key.rateLimit in suite.managers || load.1.None?) && !grant(Tier(key.rateLimit), key.id))
    ensures forall x :: x != key.rateLimit ==> SyncSuite.GetManager(r.2, x) == SyncSuite.GetManager(suite, x)
  {
    var level := key.rateLimit;
    if level == "" then (Next, [], suite)
    else if level in suite.managers then
      var (o, e, s') := DrawFromLevel(suite, level, suite.managers[level], key.id, grant);
      (o, [e], s')
    else if load.1.Some? then (Abort(500), [RateLimitLookup(level)], suite)
    else
      var m := SyncManager.NewManager(load.0.limit, load.0.refill);
      var (o, e, s') := DrawFromLevel(SyncSuite.AddManager(suite, level, m), level, m, key.id, grant);
      (o, [RateLimitLookup(level), e], s')
  }

  /** A level's manager is loaded once and then reused: after a request
      that registered it, a request of any key of the same level makes no
      lookup, whatever the store would now answer. */
  lemma LoadedOnceThenReused(suite: SyncSuite.Suite, key: EntitiesKey.Key, other: EntitiesKey.Key,
                             load: (EntitiesRateLimit.RateLimit, Option<Error>),
                             later: (EntitiesRateLimit.RateLimit, Option<Error>), grant: Grant)
    requires key.rateLimit != "" && load.1.None? && other.rateLimit == key.rateLimit
    ensures var second := RateLimit(RateLimit(suite, key, load, grant).2, other, later, grant);
      second.1 == [DrawOne(Tier(key.rateLimit), other.id, grant)]
  {
  }
}
