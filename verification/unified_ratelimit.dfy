/** The `UnifiedRateLimit` middleware (`server/middleware/unified_ratelimit.go`):
    requests without a key draw from a per-IP bucket; requests with a key
    first draw an authentication attempt for that key, pass the key-source
    validator, and then draw from their tier's bucket (or from the default
    key bucket when the key has no usable tier). A request that gets as far
    as a tier or default decision gives its attempt token back. */
module UnifiedRateLimit {
  import opened Errors
  import opened Handler
  import SyncManager
  import SyncSuite
  import EntitiesRateLimit
  import KeyAuth

  /** `ceil(4x/3)`, the number of base64 characters for `x` bytes. */
  function Ceil43(x: int): (n: int)
    ensures 3 * n >= 4 * x && 3 * n < 4 * x + 3
  {
    -((-4 * x) / 3)
  }

  /** `KeySourceValidator` at construction: fatal when the checksum would be
      longer than a SHA-512 sum, otherwise the key length it will demand. */
  function KeySize(randomBytes: int, checksumBytes: int): (r: Result<int>)
    ensures r.Panic? <==> checksumBytes > 64
    ensures r.Ok? ==> r.value == Ceil43(randomBytes) + Ceil43(checksumBytes)
    ensures !r.Err?
  {
    if checksumBytes > 64 then Panic("KeySourceValidator: checksumBytes cannot be greater than 64") else Ok(Ceil43(randomBytes) + Ceil43(checksumBytes))
  }

  /** The validator built for a size: a key of any other length is rejected
      before it is decoded; `checksumOK` says whether the key decodes and
      its checksum part matches the salted SHA-512 of its random part. */
  function ValidateKey(size: int, key: string, checksumOK: bool): (ok: bool)
    ensures ok <==> |key| == size && checksumOK
  {
    if |key| != size then false else checksumOK
  }

  /** The request once a valid key has its tier id `level`: the tier's
      manager is used if registered, otherwise the tier's rate limit is
      loaded (`load`) and a manager built from it. `t` is the trace so far. */
  function TierPath(suite: SyncSuite.Suite, keyID: string, level: string,
                    load: (EntitiesRateLimit.RateLimit, Option<Error>), grant: Grant, t: seq<Event>)
    : (r: (Outcome, seq<Event>, SyncSuite.Suite))
    ensures level in suite.managers ==>
      r.1 == t + [Drew(KeyAttempt, keyID, -1), DrawOne(Tier(level), keyID, grant)]
    ensures level !in suite.managers && load.1.Some? && load.1.value == ErrNoRows ==>
      r == (if grant(KeyDefault, keyID) then Next else Abort(429),
            t + [RateLimitLookup(level), Drew(KeyAttempt, keyID, -1), DrawOne(KeyDefault, keyID, grant)], suite)
    ensures level !in suite.managers && load.1.Some? && load.1.value != ErrNoRows ==>
      r == (Abort(500), t + [RateLimitLookup(level)], suite)
    ensures level !in suite.managers && load.1.None? ==>
      r.1 == t + [RateLimitLookup(level), Drew(KeyAttempt, keyID, -1), DrawOne(Tier(level), keyID, grant)]
      && SyncSuite.GetManager(r.2, level).Some?
      && r.2.managers[level].limit == load.0.limit && r.2.managers[level].reset == load.0.refill
    ensures (level in suite.managers || load.1.None?) ==> r.0 == (if grant(Tier(level), keyID) then Next else Abort(429))
    ensures r.0 == Abort(500) <==> level !in suite.managers && load.1.Some? && load.1.value != ErrNoRows
  {
    if level in suite.managers then
      var (o, e, s') := DrawFromLevel(suite, level, suite.managers[level], keyID, grant);
      (o, t + [Drew(KeyAttempt, keyID, -1), e], s')
    else if load.1.Some? then
      if load.1.value == ErrNoRows then
        (if grant(KeyDefault, keyID) then Next else Abort(429),
         t + [RateLimitLookup(level), Drew(KeyAttempt, keyID, -1), DrawOne(KeyDefault, keyID, grant)], suite)
      else (Abort(500), t + [RateLimitLookup(level)], suite)
    else
      var m := SyncManager.NewManager(load.0.limit, load.0.refill);
      var (o, e, s') := DrawFromLevel(SyncSuite.AddManager(suite, level, m), level, m, keyID, grant);
      (o, t + [RateLimitLookup(level), Drew(KeyAttempt, keyID, -1), e], s')
  }

  /** The tier path takes the attempt token back exactly when it does not
      end in 500. */
  lemma TierPathNet(suite: SyncSuite.Suite, keyID: string, level: string,
                    load: (EntitiesRateLimit.RateLimit, Option<Error>), grant: Grant, t: seq<Event>)
    ensures var r := TierPath(suite, keyID, level, load, grant, t);
      Net(r.1, KeyAttempt, keyID) == Net(t, KeyAttempt, keyID) - (if r.0 == Abort(500) then 0 else 1)
  {
    if level in suite.managers {
      NetSnoc2(t, Drew(KeyAttempt, keyID, -1), DrawOne(Tier(level), keyID, grant), KeyAttempt, keyID);
    } else if load.1.Some? && load.1.value == ErrNoRows {
      NetSnoc3(t, RateLimitLookup(level), Drew(KeyAttempt, keyID, -1), DrawOne(KeyDefault, keyID, grant), KeyAttempt, keyID);
    } else if load.1.Some? {
      NetSnoc(t, RateLimitLookup(level), KeyAttempt, keyID);
    } else {
      NetSnoc3(t, RateLimitLookup(level), Drew(KeyAttempt, keyID, -1), DrawOne(Tier(level), keyID, grant), KeyAttempt, keyID);
    }
  }

  /** The handler as written. `header` and `query` carry the key,
      `valid` is the validator's verdict on it, `tier` the answer of
      `GetKeyRateLimitID` and `load` that of `GetRateLimitData` for the tier
      id used. When the tier lookup fails with an error other than
      `ErrKeyMissing` and the default bucket refuses, the code does not
      stop: it goes on to the tier path with whatever tier id came back,
      which gives the attempt token back a second time. */
  function UnifiedRateLimitAsWritten(suite: SyncSuite.Suite, header: string, query: string, clientIP: string,
                                     valid: bool, tier: (string, Option<Error>),
                                     load: (EntitiesRateLimit.RateLimit, Option<Error>), grant: Grant)
    : (r: (Outcome, seq<Event>, SyncSuite.Suite))
    ensures var (keyID, provided) := KeyAuth.ExtractKey(header, query);
      (!provided ==>
        r == (if grant(AnonymousIP, clientIP) then Next else Abort(429), [DrawOne(AnonymousIP, clientIP, grant)], suite))
      && (provided && !grant(KeyAttempt, keyID) ==> r == (Abort(429), [Refused(KeyAttempt, keyID)], suite))
      && (provided && grant(KeyAttempt, keyID) && !valid ==>
        r == (Abort(403), [Drew(KeyAttempt, keyID, 1), Validated(keyID)], suite))
      && (provided && grant(KeyAttempt, keyID) && valid && tier.1 == Some(ErrKeyMissing) ==>
        r == (Abort(403), [Drew(KeyAttempt, keyID, 1), Validated(keyID), TierLookup(keyID)], suite))
      && (provided && grant(KeyAttempt, keyID) && valid && tier.1.Some? && tier.1 != Some(ErrKeyMissing)
          && grant(KeyDefault, keyID) ==>
        r == (Next, [Drew(KeyAttempt, keyID, 1), Validated(keyID), TierLookup(keyID),
                     Drew(KeyAttempt, keyID, -1), Drew(KeyDefault, keyID, 1)], suite))
      && (provided && grant(KeyAttempt, keyID) && valid && tier.1.Some? && tier.1 != Some(ErrKeyMissing)
          && !grant(KeyDefault, keyID) ==>
        r == TierPath(suite, keyID, tier.0, load, grant,
                      [Drew(KeyAttempt, keyID, 1), Validated(keyID), TierLookup(keyID),
                       Drew(KeyAttempt, keyID, -1), Refused(KeyDefault, keyID)]))
      && (provided && grant(KeyAttempt, keyID) && valid && tier.1.None? ==>
        r == TierPath(suite, keyID, tier.0, load, grant, [Drew(KeyAttempt, keyID, 1), Validated(keyID), TierLookup(keyID)]))
  {
    var (keyID, provided) := KeyAuth.ExtractKey(header, query);
    if !provided then
      (if grant(AnonymousIP, clientIP) then Next else Abort(429), [DrawOne(AnonymousIP, clientIP, grant)], suite)
    else if !grant(KeyAttempt, keyID) then (Abort(429), [Refused(KeyAttempt, keyID)], suite)
    else if !valid then (Abort(403), [Drew(KeyAttempt, keyID, 1), Validated(keyID)], suite)
    else if tier.1 == Some(ErrKeyMissing) then
      (Abort(403), [Drew(KeyAttempt, keyID, 1), Validated(keyID), TierLookup(keyID)], suite)
    else if tier.1.Some? then
      if grant(KeyDefault, keyID) then
        (Next, [Drew(KeyAttempt, keyID, 1), Validated(keyID), TierLookup(keyID),
                Drew(KeyAttempt, keyID, -1), Drew(KeyDefault, keyID, 1)], suite)
      else
        TierPath(suite, keyID, tier.0, load, grant,
                 [Drew(KeyAttempt, keyID, 1), Validated(keyID), TierLookup(keyID),
                  Drew(KeyAttempt, keyID, -1), Refused(KeyDefault, keyID)])
    else TierPath(suite, keyID, tier.0, load, grant, [Drew(KeyAttempt, keyID, 1), Validated(keyID), TierLookup(keyID)])
  }

  /** The handler as intended: a key whose tier lookup failed and whose
      default bucket refuses is rate limited (429) there and then. */
  function UnifiedRateLimit(suite: SyncSuite.Suite, header: string, query: string, clientIP: string,
                            valid: bool, tier: (string, Option<Error>),
                            load: (EntitiesRateLimit.RateLimit, Option<Error>), grant: Grant)
    : (r: (Outcome, seq<Event>, SyncSuite.Suite))
    ensures var (keyID, provided) := KeyAuth.ExtractKey(header, query);
      (provided && grant(KeyAttempt, keyID) && valid && tier.1.Some? && tier.1 != Some(ErrKeyMissing) ==>
        r == (if grant(KeyDefault, keyID) then Next else Abort(429),
              [Drew(KeyAttempt, keyID, 1), Validated(keyID), TierLookup(keyID),
               Drew(KeyAttempt, keyID, -1), DrawOne(KeyDefault, keyID, grant)], suite))
      && (!(provided && grant(KeyAttempt, keyID) && valid && tier.1.Some? && tier.1 != Some(ErrKeyMissing)) ==>
        r == UnifiedRateLimitAsWritten(suite, header, query, clientIP, valid, tier, load, grant))
  {
    var (keyID, provided) := KeyAuth.ExtractKey(header, query);
    if provided && grant(KeyAttempt, keyID) && valid && tier.1.Some? && tier.1 != Some(ErrKeyMissing) then
      (if grant(KeyDefault, keyID) then Next else Abort(429),
       [Drew(KeyAttempt, keyID, 1), Validated(keyID), TierLookup(keyID),
        Drew(KeyAttempt, keyID, -1), DrawOne(KeyDefault, keyID, grant)], suite)
    else UnifiedRateLimitAsWritten(suite, header, query, clientIP, valid, tier, load, grant)
  }

  /** The attempt bucket of the corrected handler only keeps a token for
      requests turned away after the attempt was counted (a key that fails
      validation or is unknown, or a store failure); every request that
      reaches a rate decision gives its token back, and no more than that. */
  lemma {:induction false} AttemptTokenKept(suite: SyncSuite.Suite, header: string, query: string, clientIP: string,
                                            valid: bool, tier: (string, Option<Error>),
                                            load: (EntitiesRateLimit.RateLimit, Option<Error>), grant: Grant)
    ensures var (keyID, provided) := KeyAuth.ExtractKey(header, query);
      var r := UnifiedRateLimit(suite, header, query, clientIP, valid, tier, load, grant);
      Net(r.1, KeyAttempt, keyID) ==
        (if provided && grant(KeyAttempt, keyID) && (r.0 == Abort(403) || r.0 == Abort(500)) then 1 else 0)
  {
    var (keyID, provided) := KeyAuth.ExtractKey(header, query);
    var r := UnifiedRateLimit(suite, header, query, clientIP, valid, tier, load, grant);
    var e: seq<Event> := [];
    if !provided {
      NetSnoc(e, DrawOne(AnonymousIP, clientIP, grant), KeyAttempt, keyID);
      assert r.1 == e + [DrawOne(AnonymousIP, clientIP, grant)];
    } else if !grant(KeyAttempt, keyID) {
      NetSnoc(e, Refused(KeyAttempt, keyID), KeyAttempt, keyID);
      assert r.1 == e + [Refused(KeyAttempt, keyID)];
    } else if !valid {
      NetSnoc2(e, Drew(KeyAttempt, keyID, 1), Validated(keyID), KeyAttempt, keyID);
      assert r.1 == e + [Drew(KeyAttempt, keyID, 1), Validated(keyID)];
    } else {
      var t3 := [Drew(KeyAttempt, keyID, 1), Validated(keyID), TierLookup(keyID)];
      NetSnoc3(e, Drew(KeyAttempt, keyID, 1), Validated(keyID), TierLookup(keyID), KeyAttempt, keyID);
      assert t3 == e + t3;
      if tier.1 == Some(ErrKeyMissing) {
        assert r.1 == t3;
      } else if tier.1.Some? {
        NetSnoc2(t3, Drew(KeyAttempt, keyID, -1), DrawOne(KeyDefault, keyID, grant), KeyAttempt, keyID);
        assert r.1 == t3 + [Drew(KeyAttempt, keyID, -1), DrawOne(KeyDefault, keyID, grant)];
      } else {
        TierPathNet(suite, keyID, tier.0, load, grant, t3);
      }
    }
  }

  /** The handler as written can give back more attempt tokens than it
      took: an unknown tier failure followed by a refusing default bucket and
      a tier id without a rate limit leaves the key's attempt bucket a token
      richer than before the request, having asked the default bucket twice. */
  lemma AsWrittenDoubleRefund(suite: SyncSuite.Suite, load: (EntitiesRateLimit.RateLimit, Option<Error>))
    requires "" !in suite.managers && load.1 == Some(ErrNoRows)
    ensures var grant: Grant := (l: Limiter, id: string) => l == KeyAttempt;
      var r := UnifiedRateLimitAsWritten(suite, "k", "", "ip", true, ("", Some(ErrStore(1))), load, grant);
      r.0 == Abort(429) && Net(r.1, KeyAttempt, "k") == -1
  {
    var grant: Grant := (l: Limiter, id: string) => l == KeyAttempt;
    var e: seq<Event> := [];
    var t3 := [Drew(KeyAttempt, "k", 1), Validated("k"), TierLookup("k")];
    var t5 := t3 + [Drew(KeyAttempt, "k", -1), Refused(KeyDefault, "k")];
    NetSnoc3(e, Drew(KeyAttempt, "k", 1), Validated("k"), TierLookup("k"), KeyAttempt, "k");
    assert e + t3 == t3;
    NetSnoc2(t3, Drew(KeyAttempt, "k", -1), Refused(KeyDefault, "k"), KeyAttempt, "k");
    assert t5 == [Drew(KeyAttempt, "k", 1), Validated("k"), TierLookup("k"), Drew(KeyAttempt, "k", -1), Refused(KeyDefault, "k")];
    TierPathNet(suite, "k", "", load, grant, t5);
  }
}
