/** `syncmap.CountMap`: a map of counters behind a lock. Only the sequential
    meaning of each operation is modelled; an absent id reads as zero. The
    counters are unbounded integers. */
module SyncMap {

  datatype CountMap = CountMap(data: map<string, int>)

  /** `New`: no counters. */
  function New(): (m: CountMap)
    ensures forall id :: id !in m.data
  {
    CountMap(map[])
  }

  /** `Get`: the stored value and true, or zero and false. */
  function Get(m: CountMap, id: string): (r: (int, bool))
    ensures r.1 <==> id in m.data
    ensures r.1 ==> r.0 == m.data[id]
    ensures !r.1 ==> r.0 == 0
  {
    if id in m.data then (m.data[id], true) else (0, false)
  }

  /** `GetOrZero`: the stored value, or zero for an absent id. */
  function GetOrZero(m: CountMap, id: string): (v: int)
    ensures v == Get(m, id).0
  {
    if id in m.data then m.data[id] else 0
  }

  /** `Put`. */
  function Put(m: CountMap, id: string, value: int): (m': CountMap)
    ensures Get(m', id) == (value, true)
    ensures forall x :: x != id ==> Get(m', x) == Get(m, x)
  {
    CountMap(m.data[id := value])
  }

  /** `Delete`. */
  function Delete(m: CountMap, id: string): (m': CountMap)
    ensures Get(m', id) == (0, false)
    ensures forall x :: x != id ==> Get(m', x) == Get(m, x)
  {
    CountMap(m.data - {id})
  }

  /** `CompareLessAndIncrement`: true exactly when the current value is below
      `limit`, and then the value goes up by one; false leaves the map as it
      was (an absent id is not even created). */
  function CompareLessAndIncrement(m: CountMap, id: string, limit: int): (r: (bool, CountMap))
    ensures r.0 <==> GetOrZero(m, id) < limit
    ensures r.0 ==> Get(r.1, id) == (GetOrZero(m, id) + 1, true)
    ensures !r.0 ==> r.1 == m
    ensures forall x :: x != id ==> Get(r.1, x) == Get(m, x)
  {
    var cur := GetOrZero(m, id);
    if cur >= limit then (false, m) else (true, CountMap(m.data[id := cur + 1]))
  }

  /** `Increment`: stores and returns the old value plus one. */
  function Increment(m: CountMap, id: string): (r: (int, CountMap))
    ensures r.0 == GetOrZero(m, id) + 1
    ensures Get(r.1, id) == (r.0, true)
    ensures forall x :: x != id ==> Get(r.1, x) == Get(m, x)
  {
    var v := GetOrZero(m, id) + 1;
    (v, CountMap(m.data[id := v]))
  }

  /** `Decrement`: stores and returns the old value minus one; the entry is
      kept even at zero, and may go negative. */
  function Decrement(m: CountMap, id: string): (r: (int, CountMap))
    ensures r.0 == GetOrZero(m, id) - 1
    ensures Get(r.1, id) == (r.0, true)
    ensures forall x :: x != id ==> Get(r.1, x) == Get(m, x)
  {
    var v := GetOrZero(m, id) - 1;
    (v, CountMap(m.data[id := v]))
  }

  /** Incrementing and then decrementing restores every counter's reading
      (the id may now be present with its old reading). */
  lemma IncrementDecrement(m: CountMap, id: string, x: string)
    ensures GetOrZero(Decrement(Increment(m, id).1, id).1, x) == GetOrZero(m, x)
  {
  }

  /** The number of successes among `n` consecutive
      `CompareLessAndIncrement(id, limit)` calls. */
  function Admissions(m: CountMap, id: string, limit: int, n: nat): nat
    decreases n
  {
    if n == 0 then 0
    else
      var (ok, m') := CompareLessAndIncrement(m, id, limit);
      (if ok then 1 else 0) + Admissions(m', id, limit, n - 1)
  }

  /** `CompareLessAndIncrement` is an admission counter: out of `n` attempts
      exactly as many succeed as there is room left below `limit`, and never
      more than `n`. */
  lemma {:induction false} AdmissionsBound(m: CountMap, id: string, limit: int, n: nat)
    ensures var room := if limit - GetOrZero(m, id) < 0 then 0 else limit - GetOrZero(m, id);
      Admissions(m, id, limit, n) == (if n < room then n else room)
    decreases n
  {
    if n > 0 {
      var (ok, m') := CompareLessAndIncrement(m, id, limit);
      AdmissionsBound(m', id, limit, n - 1);
    }
  }
}
