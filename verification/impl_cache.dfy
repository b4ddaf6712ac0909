/** The caching store (`impl/cache/cache.go`): per-entity caches of (value,
    error) pairs in front of a store whose answers are passed in. Reads are
    read-through with negative caching, creates cache after the store
    succeeds, role changes refresh the cached key, and permission changes
    patch the cached resource's `OperationNodes` in place. */
module ImplCache {
  import opened Errors
  import opened CacheHelpers
  import EntitiesKey
  import EntitiesResource
  import EntitiesRole
  import EntitiesRateLimit
  import OperationType
  import Schema
  import ImplResource

  type Resource = EntitiesResource.Resource
  type OperationAccess = EntitiesResource.OperationAccess

  /** `CacheDB` without its store handle; the role and token caches are
      never read or written and are left out. */
  datatype CacheDB = CacheDB(
    resources: Cache<Resource>,
    keys: Cache<EntitiesKey.Key>,
    rateLimits: Cache<EntitiesRateLimit.RateLimit>,
    rateLimitIDs: Cache<string>)

  /** `NewCache`: every cache starts empty. */
  function NewCache(): (c: CacheDB)
    ensures c.resources == map[] && c.keys == map[] && c.rateLimits == map[] && c.rateLimitIDs == map[]
  {
    CacheDB(map[], map[], map[], map[])
  }

  /** The answer of a read, the caches afterwards, and the store calls made. */
  datatype Read<T> = Read(entry: Entry<T>, db: CacheDB, fetches: nat)

  // ---- creates ----

  /** `CreateKey`: the key is cached under its id only after the store
      accepted it; the other caches are not touched. */
  function CreateKey(c: CacheDB, key: EntitiesKey.Key, storeErr: Option<Error>): (r: (Option<Error>, CacheDB))
    ensures r.0 == storeErr
    ensures storeErr.Some? ==> r.1 == c
    ensures storeErr.None? ==> r.1 == c.(keys := c.keys[key.id := Entry(key, None)])
  {
    var (err, keys) := CreateData(c.keys, key.id, key, storeErr);
    (err, c.(keys := keys))
  }

  /** `CreateResource`, through `createData`. */
  function CreateResource(c: CacheDB, res: Resource, storeErr: Option<Error>): (r: (Option<Error>, CacheDB))
    ensures r.0 == storeErr
    ensures storeErr.Some? ==> r.1 == c
    ensures storeErr.None? ==> r.1 == c.(resources := c.resources[res.id := Entry(res, None)])
  {
    var (err, rs) := CreateData(c.resources, res.id, res, storeErr);
    (err, c.(resources := rs))
  }

  /** `CreateRole`: passed straight to the store; no cache is touched. */
  function CreateRole(c: CacheDB, role: EntitiesRole.Role, storeErr: Option<Error>): (r: (Option<Error>, CacheDB))
    ensures r == (storeErr, c)
  {
    (storeErr, c)
  }

  /** `CreateRateLimit`, through `createData`. */
  function CreateRateLimit(c: CacheDB, rl: EntitiesRateLimit.RateLimit, storeErr: Option<Error>): (r: (Option<Error>, CacheDB))
    ensures r.0 == storeErr
    ensures storeErr.Some? ==> r.1 == c
    ensures storeErr.None? ==> r.1 == c.(rateLimits := c.rateLimits[rl.id := Entry(rl, None)])
  {
    var (err, rls) := CreateData(c.rateLimits, rl.id, rl, storeErr);
    (err, c.(rateLimits := rls))
  }

  // ---- read-through lookups ----

  /** `GetKeyData`: read-through on the key cache, errors cached too. */
  function GetKeyData(c: CacheDB, keyID: string, fetch: Entry<EntitiesKey.Key>): (r: Read<EntitiesKey.Key>)
    ensures keyID in c.keys ==> r == Read(c.keys[keyID], c, 0)
    ensures keyID !in c.keys ==> r == Read(fetch, c.(keys := c.keys[keyID := fetch]), 1)
  {
    var rd := RetrieveData(c.keys, keyID, fetch);
    Read(rd.entry, c.(keys := rd.cache), rd.fetches)
  }

  /** How a call that takes the key cache's lock ends: with its answer and
      the number of read locks then held, or blocked for ever. */
  datatype Locked<T> = Hang | Done(read: Read<T>, readers: nat)

  /** `GetKeyData` as written, with `readers` read locks already held on the
      key cache. It takes a read lock; on a hit it takes a second one where
      a release was meant and returns with both held; on a miss it asks for
      the write lock while still holding its own read lock, and a
      read-write mutex grants that only once every reader has left. */
  function GetKeyDataAsWritten(c: CacheDB, readers: nat, keyID: string, fetch: Entry<EntitiesKey.Key>): (r: Locked<EntitiesKey.Key>)
    ensures r.Hang? <==> keyID !in c.keys
    ensures r.Done? ==> r.read == GetKeyData(c, keyID, fetch) && r.readers == readers + 2
  {
    var held := readers + 1;
    if keyID in c.keys then Done(Read(c.keys[keyID], c, 0), held + 1)
    else Hang
  }

  /** Every miss blocks as written, whatever locks were held before, while
      the corrected read makes its one store call and caches the answer. */
  lemma MissHangsAsWritten(c: CacheDB, readers: nat, keyID: string, fetch: Entry<EntitiesKey.Key>)
    requires keyID !in c.keys
    ensures GetKeyDataAsWritten(c, readers, keyID, fetch).Hang?
    ensures GetKeyData(c, keyID, fetch).entry == fetch && GetKeyData(c, keyID, fetch).fetches == 1
    ensures GetKeyData(c, keyID, fetch).db.keys[keyID] == fetch
  {
  }

  /** `GetResourceData`: read-through on the resource cache. */
  function GetResourceData(c: CacheDB, resourceID: string, fetch: Entry<Resource>): (r: Read<Resource>)
    ensures resourceID in c.resources ==> r == Read(c.resources[resourceID], c, 0)
    ensures resourceID !in c.resources ==> r == Read(fetch, c.(resources := c.resources[resourceID := fetch]), 1)
  {
    var rd := RetrieveData(c.resources, resourceID, fetch);
    Read(rd.entry, c.(resources := rd.cache), rd.fetches)
  }

  /** `GetRateLimitData`: read-through on the rate-limit cache. */
  function GetRateLimitData(c: CacheDB, rateLimitID: string, fetch: Entry<EntitiesRateLimit.RateLimit>): (r: Read<EntitiesRateLimit.RateLimit>)
    ensures rateLimitID in c.rateLimits ==> r == Read(c.rateLimits[rateLimitID], c, 0)
    ensures rateLimitID !in c.rateLimits ==> r == Read(fetch, c.(rateLimits := c.rateLimits[rateLimitID := fetch]), 1)
  {
    var rd := RetrieveData(c.rateLimits, rateLimitID, fetch);
    Read(rd.entry, c.(rateLimits := rd.cache), rd.fetches)
  }

  /** `GetKeyRateLimitID`: read-through on the key-to-tier cache. */
  function GetKeyRateLimitID(c: CacheDB, keyID: string, fetch: Entry<string>): (r: Read<string>)
    ensures keyID in c.rateLimitIDs ==> r == Read(c.rateLimitIDs[keyID], c, 0)
    ensures keyID !in c.rateLimitIDs ==> r == Read(fetch, c.(rateLimitIDs := c.rateLimitIDs[keyID := fetch]), 1)
  {
    var rd := RetrieveData(c.rateLimitIDs, keyID, fetch);
    Read(rd.entry, c.(rateLimitIDs := rd.cache), rd.fetches)
  }

  /** A failed lookup is remembered: asking again returns the same error
      without asking the store, whatever the store would now answer. */
  lemma NegativeCaching(c: CacheDB, resourceID: string, fetch: Entry<Resource>, later: Entry<Resource>)
    requires fetch.err.Some? && resourceID !in c.resources
    ensures var first := GetResourceData(c, resourceID, fetch);
      var second := GetResourceData(first.db, resourceID, later);
      second.entry.err == fetch.err && second.fetches == 0
  {
  }

  // ---- role changes: write, then refresh the cached key ----

  function KeyID(k: EntitiesKey.Key): string {
    k.id
  }

  /** `GiveRole`: the store links the roles; then the key is read back and
      cached, and a failed read-back is fatal. */
  function GiveRole(c: CacheDB, keyID: string, roles: seq<string>, storeErr: Option<Error>, refetch: Entry<EntitiesKey.Key>): (r: (Result<()>, CacheDB))
    ensures storeErr.Some? ==> r == (Err(storeErr.value), c)
    ensures r.0.Ok? <==> storeErr.None? && refetch.err.None?
    ensures r.0.Ok? ==> r.1 == c.(keys := c.keys[refetch.val.id := Entry(refetch.val, None)])
    ensures r.1.resources == c.resources && r.1.rateLimits == c.rateLimits && r.1.rateLimitIDs == c.rateLimitIDs
  {
    var (res, keys) := UpdateData(c.keys, storeErr, refetch, KeyID);
    (res, c.(keys := keys))
  }

  /** `TakeRole`: as `GiveRole`, with the store unlinking the roles. */
  function TakeRole(c: CacheDB, keyID: string, roles: seq<string>, storeErr: Option<Error>, refetch: Entry<EntitiesKey.Key>): (r: (Result<()>, CacheDB))
    ensures storeErr.Some? ==> r == (Err(storeErr.value), c)
    ensures r.0.Ok? <==> storeErr.None? && refetch.err.None?
    ensures r.0.Ok? ==> r.1 == c.(keys := c.keys[refetch.val.id := Entry(refetch.val, None)])
    ensures r.1.resources == c.resources && r.1.rateLimits == c.rateLimits && r.1.rateLimitIDs == c.rateLimitIDs
  {
    var (res, keys) := UpdateData(c.keys, storeErr, refetch, KeyID);
    (res, c.(keys := keys))
  }

  // ---- permission changes: write, then patch the cached resource ----

  /** True when the node is one of the listed roles' nodes for `op`. */
  predicate Listed(a: OperationAccess, roles: seq<string>, op: OperationType.OpType) {
    a.op == op && a.id in roles
  }

  /** The grant loop: every listed role's node for `op` is set to `status`;
      every other node is kept as it was. */
  function PatchGrant(nodes: map<OperationAccess, bool>, roles: seq<string>, op: OperationType.OpType, status: bool): (r: map<OperationAccess, bool>)
    ensures forall a :: a in r <==> a in nodes || Listed(a, roles, op)
    ensures forall a :: a in r && Listed(a, roles, op) ==> r[a] == status
    ensures forall a :: a in nodes && !Listed(a, roles, op) ==> r[a] == nodes[a]
    decreases |roles|
  {
    if |roles| == 0 then nodes
    else
      var n := |roles| - 1;
      var prefix := PatchGrant(nodes, roles[..n], op, status);
      ListedSnoc(roles, op);
      prefix[EntitiesResource.OperationAccess(roles[n], op) := status]
  }

  /** The revoke loop: every listed role's node for `op` is deleted, whatever
      its status; every other node is kept as it was. */
  function PatchRevoke(nodes: map<OperationAccess, bool>, roles: seq<string>, op: OperationType.OpType): (r: map<OperationAccess, bool>)
    ensures forall a :: a in r <==> a in nodes && !Listed(a, roles, op)
    ensures forall a :: a in r ==> r[a] == nodes[a]
    decreases |roles|
  {
    if |roles| == 0 then nodes
    else
      var n := |roles| - 1;
      var prefix := PatchRevoke(nodes, roles[..n], op);
      ListedSnoc(roles, op);
      prefix - {EntitiesResource.OperationAccess(roles[n], op)}
  }

  lemma ListedSnoc(roles: seq<string>, op: OperationType.OpType)
    requires |roles| > 0
    ensures forall a :: Listed(a, roles, op) <==>
      Listed(a, roles[..|roles| - 1], op) || a == EntitiesResource.OperationAccess(roles[|roles| - 1], op)
  {
    assert roles == roles[..|roles| - 1] + [roles[|roles| - 1]];
  }

  /** `GrantPermission`: a store error is returned with every cache as it
      was. Otherwise the resource is read through the cache (`fetch` is the
      store's answer on a miss); a failed read is returned, and a successful
      one is patched and cached with no error. */
  function GrantPermission(c: CacheDB, p: EntitiesRole.Permission, roles: seq<string>,
                           storeErr: Option<Error>, fetch: Entry<Resource>): (r: (Option<Error>, CacheDB))
    ensures storeErr.Some? ==> r == (storeErr, c)
    ensures storeErr.None? ==>
      var read := GetResourceData(c, p.resourceID, fetch);
      (read.entry.err.Some? ==> r == (read.entry.err, read.db))
      && (read.entry.err.None? ==> (r.0.None? && p.resourceID in r.1.resources
          && r.1.resources[p.resourceID].err.None?
          && r.1.resources[p.resourceID].val.id == read.entry.val.id
          && r.1.resources[p.resourceID].val.flags == read.entry.val.flags
          && r.1.resources[p.resourceID].val.operationNodes
             == PatchGrant(read.entry.val.operationNodes, roles, p.typeRWMD, p.status)))
    ensures r.1.keys == c.keys && r.1.rateLimits == c.rateLimits && r.1.rateLimitIDs == c.rateLimitIDs
    ensures forall x :: x in c.resources && x != p.resourceID ==> x in r.1.resources && r.1.resources[x] == c.resources[x]
  {
    if storeErr.Some? then (storeErr, c)
    else
      var read := GetResourceData(c, p.resourceID, fetch);
      if read.entry.err.Some? then (read.entry.err, read.db)
      else
        var res := read.entry.val;
        var patched := res.(operationNodes := PatchGrant(res.operationNodes, roles, p.typeRWMD, p.status));
        (None, read.db.(resources := read.db.resources[p.resourceID := Entry(patched, None)]))
  }

  /** `RevokePermission`: as `GrantPermission`, deleting the listed roles'
      nodes instead. */
  function RevokePermission(c: CacheDB, p: EntitiesRole.Permission, roles: seq<string>,
                            storeErr: Option<Error>, fetch: Entry<Resource>): (r: (Option<Error>, CacheDB))
    ensures storeErr.Some? ==> r == (storeErr, c)
    ensures storeErr.None? ==>
      var read := GetResourceData(c, p.resourceID, fetch);
      (read.entry.err.Some? ==> r == (read.entry.err, read.db))
      && (read.entry.err.None? ==> (r.0.None? && p.resourceID in r.1.resources
          && r.1.resources[p.resourceID].err.None?
          && r.1.resources[p.resourceID].val.id == read.entry.val.id
          && r.1.resources[p.resourceID].val.flags == read.entry.val.flags
          && r.1.resources[p.resourceID].val.operationNodes
             == PatchRevoke(read.entry.val.operationNodes, roles, p.typeRWMD)))
    ensures r.1.keys == c.keys && r.1.rateLimits == c.rateLimits && r.1.rateLimitIDs == c.rateLimitIDs
    ensures forall x :: x in c.resources && x != p.resourceID ==> x in r.1.resources && r.1.resources[x] == c.resources[x]
  {
    if storeErr.Some? then (storeErr, c)
    else
      var read := GetResourceData(c, p.resourceID, fetch);
      if read.entry.err.Some? then (read.entry.err, read.db)
      else
        var res := read.entry.val;
        var patched := res.(operationNodes := PatchRevoke(res.operationNodes, roles, p.typeRWMD));
        (None, read.db.(resources := read.db.resources[p.resourceID := Entry(patched, None)]))
  }

  /** After a successful grant the next read of the resource is a hit that
      shows every listed role with the granted status for the operation. */
  lemma GrantThenGet(c: CacheDB, p: EntitiesRole.Permission, roles: seq<string>, fetch: Entry<Resource>,
                     later: Entry<Resource>, k: nat)
    requires k < |roles|
    requires GrantPermission(c, p, roles, None, fetch).0.None?
    ensures var read := GetResourceData(GrantPermission(c, p, roles, None, fetch).1, p.resourceID, later);
      read.fetches == 0 && read.entry.err.None?
      && EntitiesResource.OperationAccess(roles[k], p.typeRWMD) in read.entry.val.operationNodes
      && read.entry.val.operationNodes[EntitiesResource.OperationAccess(roles[k], p.typeRWMD)] == p.status
  {
    assert Listed(EntitiesResource.OperationAccess(roles[k], p.typeRWMD), roles, p.typeRWMD);
  }

  /** Revoking what was just granted leaves no node for the listed roles and
      operation, whatever status was granted or revoked, and keeps the nodes
      the grant did not touch. */
  lemma RevokeUndoesGrant(nodes: map<OperationAccess, bool>, roles: seq<string>, op: OperationType.OpType, status: bool)
    ensures var r := PatchRevoke(PatchGrant(nodes, roles, op, status), roles, op);
      forall a :: a in r <==> a in nodes && !Listed(a, roles, op)
    ensures var r := PatchRevoke(PatchGrant(nodes, roles, op, status), roles, op);
      forall a :: a in r ==> r[a] == nodes[a]
  {
  }

  /** `GrantPermission` as written: the loop assigns into the node map of
      the resource it read, and Go panics on an assignment into a map that
      was never made. A Dafny map cannot be nil, so whether the read
      resource's map was made is the parameter `nodesMade`. The store's read
      never makes it (it fills a zero `entities.Resource`), and neither does
      a caller who creates a resource without nodes. The panic comes after
      the read, so the read stays cached; a delete from a nil map is a no-op,
      so `RevokePermission` has no such case. */
  function GrantPermissionAsWritten(c: CacheDB, p: EntitiesRole.Permission, roles: seq<string>,
                                    storeErr: Option<Error>, fetch: Entry<Resource>, nodesMade: bool): (r: (Result<()>, CacheDB))
    ensures r.0.Panic? <==>
      storeErr.None? && GetResourceData(c, p.resourceID, fetch).entry.err.None? && |roles| > 0 && !nodesMade
    ensures r.0.Panic? ==> r.1 == GetResourceData(c, p.resourceID, fetch).db
    // without the panic the call is the intended grant
    ensures !r.0.Panic? ==>
      r.1 == GrantPermission(c, p, roles, storeErr, fetch).1
      && (r.0.Ok? <==> GrantPermission(c, p, roles, storeErr, fetch).0.None?)
      && (r.0.Err? ==> GrantPermission(c, p, roles, storeErr, fetch).0 == Some(r.0.error))
  {
    if storeErr.Some? then (Err(storeErr.value), c)
    else
      var read := GetResourceData(c, p.resourceID, fetch);
      if read.entry.err.Some? then (Err(read.entry.err.value), read.db)
      else if |roles| > 0 && !nodesMade then (Panic("assignment to entry in nil map"), read.db)
      else
        var res := read.entry.val;
        var patched := res.(operationNodes := PatchGrant(res.operationNodes, roles, p.typeRWMD, p.status));
        (Ok(()), read.db.(resources := read.db.resources[p.resourceID := Entry(patched, None)]))
  }

  /** A resource the store read without join rows comes back with a map that
      was never made; once it is cached, granting any role panics, where the
      intended grant succeeds. */
  lemma ReadThenGrantPanicsAsWritten(c: CacheDB, t: Schema.Tables, p: EntitiesRole.Permission, roles: seq<string>)
    requires p.resourceID !in c.resources && p.resourceID in t.resources
    requires |ImplResource.JoinRows(t.perms, t.rolePerms, p.resourceID)| == 0
    requires |roles| > 0
    ensures ImplResource.GetResourceDataAsWritten(t, p.resourceID).Ok?
    ensures var fetch := Entry(ImplResource.GetResourceDataAsWritten(t, p.resourceID).value, None);
      GrantPermissionAsWritten(c, p, roles, None, fetch, false).0.Panic?
      && GrantPermission(c, p, roles, None, fetch).0.None?
  {
  }

  /** A resource created through the cache without a node map is cached as
      the caller passed it, so the next grant on it panics without asking
      the store, where the intended grant records every listed role. */
  lemma CreateThenGrantPanicsAsWritten(c: CacheDB, res: Resource, p: EntitiesRole.Permission, roles: seq<string>,
                                       fetch: Entry<Resource>, k: nat)
    requires p.resourceID == res.id && k < |roles|
    ensures var created := CreateResource(c, res, None).1;
      GrantPermissionAsWritten(created, p, roles, None, fetch, false).0.Panic?
      && GetResourceData(created, p.resourceID, fetch).fetches == 0
    ensures var granted := GrantPermission(CreateResource(c, res, None).1, p, roles, None, fetch);
      granted.0.None?
      && granted.1.resources[p.resourceID].val.operationNodes[EntitiesResource.OperationAccess(roles[k], p.typeRWMD)] == p.status
  {
    assert Listed(EntitiesResource.OperationAccess(roles[k], p.typeRWMD), roles, p.typeRWMD);
  }

  // ---- rate limits ----

  /** `SetRateLimit` as written: the tier is written into the caller's key
      only when the store REFUSED the change, and on success the key is
      cached as it came in. The third component is the caller's key after the
      call. */
  function SetRateLimitAsWritten(c: CacheDB, key: EntitiesKey.Key, limitID: string, storeErr: Option<Error>): (r: (Option<Error>, CacheDB, EntitiesKey.Key))
    ensures r.0 == storeErr
    ensures storeErr.Some? ==> r.1 == c && r.2 == key.(rateLimit := limitID)
    ensures storeErr.None? ==> r.1 == c.(keys := c.keys[key.id := Entry(key, None)]) && r.2 == key
  {
    var key' := if storeErr.Some? then key.(rateLimit := limitID) else key;
    var (err, keys) := CreateData(c.keys, key.id, key', storeErr);
    (err, c.(keys := keys), key')
  }

  /** `SetRateLimit` with the test the comment describes: the tier is
      written into the key, and cached, once the store has accepted it. */
  function SetRateLimit(c: CacheDB, key: EntitiesKey.Key, limitID: string, storeErr: Option<Error>): (r: (Option<Error>, CacheDB, EntitiesKey.Key))
    ensures r.0 == storeErr
    ensures storeErr.Some? ==> r.1 == c && r.2 == key
    ensures storeErr.None? ==> (r.1 == c.(keys := c.keys[key.id := Entry(key.(rateLimit := limitID), None)])
      && r.2 == key.(rateLimit := limitID))
  {
    var key' := if storeErr.None? then key.(rateLimit := limitID) else key;
    var (err, keys) := CreateData(c.keys, key.id, key', storeErr);
    (err, c.(keys := keys), key')
  }

  /** As written, a successful change of tier leaves the cached key on its
      old tier (the next `GetKeyData` is a hit with the stale value), while
      a refused one makes the caller's key claim the new tier. The corrected
      version caches the new tier. */
  lemma SetRateLimitAsWrittenStale(c: CacheDB, key: EntitiesKey.Key, limitID: string, later: Entry<EntitiesKey.Key>)
    requires key.rateLimit != limitID
    ensures var read := GetKeyData(SetRateLimitAsWritten(c, key, limitID, None).1, key.id, later);
      read.fetches == 0 && read.entry.val.rateLimit == key.rateLimit && read.entry.val.rateLimit != limitID
    ensures SetRateLimitAsWritten(c, key, limitID, Some(ErrNoRows)).2.rateLimit == limitID
    ensures var read := GetKeyData(SetRateLimit(c, key, limitID, None).1, key.id, later);
      read.fetches == 0 && read.entry.val.rateLimit == limitID
  {
  }

  /** `UpdateRateLimit`, through `createData`: cached under the new value's
      own id once the store accepted it. */
  function UpdateRateLimit(c: CacheDB, rateLimitID: string, rl: EntitiesRateLimit.RateLimit, storeErr: Option<Error>): (r: (Option<Error>, CacheDB))
    ensures r.0 == storeErr
    ensures storeErr.Some? ==> r.1 == c
    ensures storeErr.None? ==> r.1 == c.(rateLimits := c.rateLimits[rl.id := Entry(rl, None)])
  {
    var (err, rls) := CreateData(c.rateLimits, rl.id, rl, storeErr);
    (err, c.(rateLimits := rls))
  }
}
