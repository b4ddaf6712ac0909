/** What the request middlewares decide and what they touch on the way: the
    outcome of a handler (pass the request on, or abort with a status), and
    the trace of limiter draws and lookups it made. Whether a draw succeeds
    is the token-bucket library's business and comes in as an oracle. */
module Handler {
  import SyncManager
  import SyncSuite
  import opened Errors

  datatype Outcome = Next | Abort(status: int)

  /** The bucket managers the middlewares draw from. */
  datatype Limiter =
    | AnonymousIP          // unified: requests without a key, keyed by client IP
    | KeyAttempt           // unified: key authentication attempts, keyed by key
    | KeyDefault           // unified: keys without a usable tier, keyed by key
    | Tier(level: string)  // a tier's manager from a suite, keyed by key
    | AuthIP               // KeyAuth: failed authentications, keyed by client IP
    | BadKeyIP             // KeyRateLimit: the IP limiter run on unknown keys

  datatype Event =
    | Drew(limiter: Limiter, id: string, n: int)  // a Draw(n) that went through; n = -1 gives a token back
    | Refused(limiter: Limiter, id: string)        // a Draw(1) the bucket refused, which takes nothing
    | Probed(limiter: Limiter, id: string)         // CanDraw(1), which takes nothing
    | Validated(key: string)                       // the key-source validator ran
    | TierLookup(keyID: string)                    // GetKeyRateLimitID
    | RateLimitLookup(level: string)               // GetRateLimitData / rate-limit Get
    | KeyLookup(key: string)                       // the key store's Get

  /** Whether a draw of one token from `limiter` for `id` succeeds now. */
  type Grant = (Limiter, string) -> bool

  /** A draw of one token, as the trace records it. */
  function DrawOne(limiter: Limiter, id: string, grant: Grant): (e: Event)
    ensures e.Drew? <==> grant(limiter, id)
  {
    if grant(limiter, id) then Drew(limiter, id, 1) else Refused(limiter, id)
  }

  /** What one event takes from `limiter` for `id`. */
  function Weight(e: Event, limiter: Limiter, id: string): int {
    if e.Drew? && e.limiter == limiter && e.id == id then e.n else 0
  }

  /** The net number of tokens the trace took from `limiter` for `id`. */
  function Net(trace: seq<Event>, limiter: Limiter, id: string): int
    decreases |trace|
  {
    if |trace| == 0 then 0
    else Net(trace[..|trace| - 1], limiter, id) + Weight(trace[|trace| - 1], limiter, id)
  }

  /** The trace made no lookups of any kind. */
  predicate NoLookups(trace: seq<Event>) {
    forall i :: 0 <= i < |trace| ==> !trace[i].TierLookup? && !trace[i].RateLimitLookup? && !trace[i].KeyLookup?
  }

  /** The trace drew nothing from any limiter. */
  predicate NoDraws(trace: seq<Event>) {
    forall i :: 0 <= i < |trace| ==> !trace[i].Drew?
  }

  lemma NetAppend(a: seq<Event>, b: seq<Event>, limiter: Limiter, id: string)
    ensures Net(a + b, limiter, id) == Net(a, limiter, id) + Net(b, limiter, id)
    decreases |b|
  {
    if |b| > 0 {
      assert (a + b)[..|a + b| - 1] == a + b[..|b| - 1];
      NetAppend(a, b[..|b| - 1], limiter, id);
    } else {
      assert a + b == a;
    }
  }

  lemma NetSnoc(t: seq<Event>, e: Event, limiter: Limiter, id: string)
    ensures Net(t + [e], limiter, id) == Net(t, limiter, id) + Weight(e, limiter, id)
  {
    assert (t + [e])[..|t|] == t;
  }

  lemma NetSnoc2(t: seq<Event>, a: Event, b: Event, limiter: Limiter, id: string)
    ensures Net(t + [a, b], limiter, id) == Net(t, limiter, id) + Weight(a, limiter, id) + Weight(b, limiter, id)
  {
    assert t + [a, b] == (t + [a]) + [b];
    NetSnoc(t + [a], b, limiter, id);
    NetSnoc(t, a, limiter, id);
  }

  lemma NetSnoc3(t: seq<Event>, a: Event, b: Event, c: Event, limiter: Limiter, id: string)
    ensures Net(t + [a, b, c], limiter, id)
      == Net(t, limiter, id) + Weight(a, limiter, id) + Weight(b, limiter, id) + Weight(c, limiter, id)
  {
    assert t + [a, b, c] == (t + [a, b]) + [c];
    NetSnoc(t + [a, b], c, limiter, id);
    NetSnoc2(t, a, b, limiter, id);
  }

  /** Take the bucket for `id` from the tier manager `m` (creating it if
      needed), keep the manager registered under `level`, and draw one token:
      a failed draw is 429, otherwise the request passes on. */
  function DrawFromLevel(suite: SyncSuite.Suite, level: string, m: SyncManager.Manager, id: string, grant: Grant)
    : (r: (Outcome, Event, SyncSuite.Suite))
    ensures r.0 == (if grant(Tier(level), id) then Next else Abort(429))
    ensures r.1 == DrawOne(Tier(level), id, grant)
    ensures SyncSuite.GetManager(r.2, level) == Some(SyncManager.GetBucket(m, id).1)
    ensures forall x :: x != level ==> SyncSuite.GetManager(r.2, x) == SyncSuite.GetManager(suite, x)
  {
    var (_, m') := SyncManager.GetBucket(m, id);
    (if grant(Tier(level), id) then Next else Abort(429), DrawOne(Tier(level), id, grant), SyncSuite.AddManager(suite, level, m'))
  }
}
