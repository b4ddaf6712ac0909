/** The read-through / write-through helper trio of the caching store
    (`impl/cache/helpers.go`; `impl/cache/cache.go` and `dbimpl/cache/cache.go`
    carry copies of the same three functions). A cache maps an id to the
    (value, error) pair the store produced, errors included. The store is
    abstract: what it answers is passed in, and `fetches` counts how often it
    was asked. Entries may be evicted at any time (`Evict`). */
module CacheHelpers {
  import opened Errors

  /** `result[T]` / `tErr[T]`: a value and the error that came with it. */
  datatype Entry<T> = Entry(val: T, err: Option<Error>)

  type Cache<T> = map<string, Entry<T>>

  /** The answer of a read through the cache, the cache afterwards, and how
      many times the store was asked. */
  datatype Retrieved<T> = Retrieved(entry: Entry<T>, cache: Cache<T>, fetches: nat)

  /** `retrieveData`: a hit returns the cached pair without asking the store;
      a miss asks the store once (`fetch` is its answer) and caches the pair,
      whether or not it is an error. */
  function RetrieveData<T>(c: Cache<T>, id: string, fetch: Entry<T>): (r: Retrieved<T>)
    ensures id in c ==> r.entry == c[id] && r.fetches == 0
    ensures id !in c ==> r.entry == fetch && r.fetches == 1
    ensures id in r.cache && r.cache[id] == r.entry
    ensures r.cache.Keys == c.Keys + {id}
    ensures forall x :: x in c && x != id ==> r.cache[x] == c[x]
  {
    if id in c then Retrieved(c[id], c, 0)
    else Retrieved(fetch, c[id := fetch], 1)
  }

  /** `createData`: the store is written first (`storeErr` is its answer); on
      failure the error is returned and the cache is left alone, on success
      the data is cached with no error under its own id. */
  function CreateData<T>(c: Cache<T>, id: string, data: T, storeErr: Option<Error>): (r: (Option<Error>, Cache<T>))
    ensures r.0 == storeErr
    ensures storeErr.Some? ==> r.1 == c
    ensures storeErr.None? ==> (r.1.Keys == c.Keys + {id} && r.1[id] == Entry(data, None)
      && forall x :: x in c && x != id ==> r.1[x] == c[x])
  {
    if storeErr.Some? then (storeErr, c) else (None, c[id := Entry(data, None)])
  }

  /** `updateData`: the store is written first; on failure the error is
      returned and the cache is left alone. After a successful write the
      value is read back (`refetch`); a failed read-back is fatal
      (`log.Fatalf`), otherwise the value read back is cached under its id. */
  function UpdateData<T>(c: Cache<T>, storeErr: Option<Error>, refetch: Entry<T>, idOf: T -> string): (r: (Result<()>, Cache<T>))
    ensures storeErr.Some? ==> r == (Err(storeErr.value), c)
    ensures storeErr.None? && refetch.err.Some? ==> r.0.Panic?
    ensures r.0.Ok? <==> storeErr.None? && refetch.err.None?
    ensures r.0.Ok? ==> (r.1.Keys == c.Keys + {idOf(refetch.val)}
      && r.1[idOf(refetch.val)] == Entry(refetch.val, None)
      && forall x :: x in c && x != idOf(refetch.val) ==> r.1[x] == c[x])
  {
    if storeErr.Some? then (Err(storeErr.value), c)
    else if refetch.err.Some? then (Panic("CACHE INCONSISTENCY DETECTED"), c)
    else (Ok(()), c[idOf(refetch.val) := Entry(refetch.val, None)])
  }

  /** The LRU dropping an entry. */
  function Evict<T>(c: Cache<T>, id: string): (c': Cache<T>)
    ensures c'.Keys == c.Keys - {id}
    ensures forall x :: x in c' ==> c'[x] == c[x]
  {
    c - {id}
  }

  /** Every cached pair is what the store would answer now (`truth`). */
  ghost predicate Coherent<T>(c: Cache<T>, truth: string -> Entry<T>) {
    forall x :: x in c ==> c[x] == truth(x)
  }

  /** A second read of the same id, with nothing in between, is a hit: it
      returns the first answer and does not ask the store, whatever the store
      would now say. */
  lemma RetrieveTwiceHits<T>(c: Cache<T>, id: string, fetch: Entry<T>, later: Entry<T>)
    ensures var first := RetrieveData(c, id, fetch);
      var second := RetrieveData(first.cache, id, later);
      second.entry == first.entry && second.cache == first.cache && second.fetches == 0
  {
  }

  /** Reading through a coherent cache answers what the store answers and
      keeps the cache coherent: the cache is invisible to readers. */
  lemma RetrieveCoherent<T>(c: Cache<T>, truth: string -> Entry<T>, id: string)
    requires Coherent(c, truth)
    ensures RetrieveData(c, id, truth(id)).entry == truth(id)
    ensures Coherent(RetrieveData(c, id, truth(id)).cache, truth)
  {
  }

  /** A create that the store accepted, after which the store answers the new
      data for its id and the same as before elsewhere, keeps the cache
      coherent; a refused create changes neither. */
  lemma CreateCoherent<T>(c: Cache<T>, truth: string -> Entry<T>, truth': string -> Entry<T>,
                          id: string, data: T, storeErr: Option<Error>)
    requires Coherent(c, truth)
    requires storeErr.None? ==> truth'(id) == Entry(data, None) && forall x :: x != id ==> truth'(x) == truth(x)
    requires storeErr.Some? ==> forall x :: truth'(x) == truth(x)
    ensures Coherent(CreateData(c, id, data, storeErr).1, truth')
  {
  }

  /** An update whose read-back is what the store now holds keeps the cache
      coherent, provided no other cached id changed in the store. */
  lemma UpdateCoherent<T>(c: Cache<T>, truth: string -> Entry<T>, truth': string -> Entry<T>,
                          storeErr: Option<Error>, refetch: Entry<T>, idOf: T -> string)
    requires Coherent(c, truth)
    requires storeErr.Some? ==> forall x :: truth'(x) == truth(x)
    requires storeErr.None? && refetch.err.None? ==>
      truth'(idOf(refetch.val)) == refetch && forall x :: x != idOf(refetch.val) ==> truth'(x) == truth(x)
    ensures UpdateData(c, storeErr, refetch, idOf).0.Ok? || storeErr.Some? ==>
      Coherent(UpdateData(c, storeErr, refetch, idOf).1, truth')
  {
  }

  /** Dropping entries never breaks coherence. */
  lemma EvictCoherent<T>(c: Cache<T>, truth: string -> Entry<T>, id: string)
    requires Coherent(c, truth)
    ensures Coherent(Evict(c, id), truth)
  {
  }
}
