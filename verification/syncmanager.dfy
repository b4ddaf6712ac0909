/** `syncrl.SyncManager`: a bucket per id, created lazily with the manager's
    limit and reset, and purged once a bucket has no remaining time. A
    bucket's inside (its tokens and clock) is not modelled; `serial` stands
    for its identity, so that "the same bucket" can be stated. */
module SyncManager {

  datatype Bucket = Bucket(serial: nat, limit: int, reset: int)

  /** `created` counts the buckets made so far and gives the next serial. */
  datatype Manager = Manager(limit: int, reset: int, buckets: map<string, Bucket>, created: nat)

  /** Every bucket was made by this manager, with its limit and reset, and
      no two ids share a bucket. */
  predicate Valid(m: Manager) {
    (forall id :: id in m.buckets ==>
      m.buckets[id].serial < m.created && m.buckets[id].limit == m.limit && m.buckets[id].reset == m.reset)
    && forall a, b :: a in m.buckets && b in m.buckets && a != b ==> m.buckets[a] != m.buckets[b]
  }

  /** `NewManager`: no buckets yet; the limit and reset are remembered. */
  function NewManager(limit: int, reset: int): (m: Manager)
    ensures m.limit == limit && m.reset == reset && m.buckets == map[]
    ensures Valid(m)
  {
    Manager(limit, reset, map[], 0)
  }

  /** `GetBucket`: a known id gets its bucket and nothing changes; an unknown
      id gets a new bucket with the manager's limit and reset, which is
      stored. */
  function GetBucket(m: Manager, id: string): (r: (Bucket, Manager))
    ensures id in m.buckets ==> r == (m.buckets[id], m)
    ensures id !in m.buckets ==> (r.0.limit == m.limit && r.0.reset == m.reset
      && r.1.buckets == m.buckets[id := r.0])
    ensures id !in m.buckets && Valid(m) ==> forall x :: x in m.buckets ==> m.buckets[x] != r.0
    ensures r.1.limit == m.limit && r.1.reset == m.reset
    ensures Valid(m) ==> Valid(r.1)
  {
    if id in m.buckets then (m.buckets[id], m)
    else
      var b := Bucket(m.created, m.limit, m.reset);
      (b, m.(buckets := m.buckets[id := b], created := m.created + 1))
  }

  /** `Purge`: exactly the buckets whose remaining time is zero are dropped
      (`remaining` stands for `RemainingTime`); the others are kept as they
      are. */
  function Purge(m: Manager, remaining: Bucket -> int): (m': Manager)
    ensures forall id :: id in m'.buckets <==> id in m.buckets && remaining(m.buckets[id]) != 0
    ensures forall id :: id in m'.buckets ==> m'.buckets[id] == m.buckets[id]
    ensures m'.limit == m.limit && m'.reset == m.reset && m'.created == m.created
    ensures Valid(m) ==> Valid(m')
  {
    m.(buckets := map id | id in m.buckets && remaining(m.buckets[id]) != 0 :: m.buckets[id])
  }

  /** Two `GetBucket(id)` calls with nothing in between return the same
      bucket, and the second changes nothing. */
  lemma GetBucketTwice(m: Manager, id: string)
    ensures var (b1, m1) := GetBucket(m, id);
      GetBucket(m1, id) == (b1, m1)
  {
  }

  /** A bucket that was purged is gone for good: the next `GetBucket` for
      its id makes a different one, with a fresh allowance. */
  lemma PurgedBucketReplaced(m: Manager, remaining: Bucket -> int, id: string)
    requires Valid(m) && id in m.buckets && remaining(m.buckets[id]) == 0
    ensures GetBucket(Purge(m, remaining), id).0 != m.buckets[id]
  {
    var p := Purge(m, remaining);
    assert id !in p.buckets;
    assert m.buckets[id].serial < p.created;
  }
}
