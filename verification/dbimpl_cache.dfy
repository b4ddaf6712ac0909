/** The older, unlocked caching store (`dbimpl/cache/cache.go`), over the
    revision of `Resource` with one node map per operation. Its helper trio
    is the one in `CacheHelpers`; what differs from `ImplCache` is the
    key read, and the grant and revoke patches, which switch on the
    operation type and refuse one outside Read..Delete after the store has
    already been written. */
module DbimplCache {
  import opened Errors
  import opened CacheHelpers
  import EntitiesKey
  import EntitiesPermission
  import EntitiesRole
  import OperationType
  import DbimplSqlite

  type Resource = EntitiesPermission.Resource

  /** The resource and key caches of `CacheDB`; its rate-limit caches behave
      as in `ImplCache`. */
  datatype CacheDB = CacheDB(resources: Cache<Resource>, keys: Cache<EntitiesKey.Key>)

  /** `CreateKey`: cached as (key, nil) only after the store accepted it. */
  function CreateKey(c: CacheDB, key: EntitiesKey.Key, storeErr: Option<Error>): (r: (Option<Error>, CacheDB))
    ensures r.0 == storeErr
    ensures storeErr.Some? ==> r.1 == c
    ensures storeErr.None? ==> r.1 == c.(keys := c.keys[key.id := Entry(key, None)])
  {
    var (err, keys) := CreateData(c.keys, key.id, key, storeErr);
    (err, c.(keys := keys))
  }

  /** `GetKeyData`: a hit returns the cached pair; a miss asks the store
      once and caches its answer, errors included. */
  function GetKeyData(c: CacheDB, keyID: string, fetch: Entry<EntitiesKey.Key>): (r: (Entry<EntitiesKey.Key>, CacheDB, nat))
    ensures keyID in c.keys ==> r == (c.keys[keyID], c, 0)
    ensures keyID !in c.keys ==> r == (fetch, c.(keys := c.keys[keyID := fetch]), 1)
  {
    var rd := RetrieveData(c.keys, keyID, fetch);
    (rd.entry, c.(keys := rd.cache), rd.fetches)
  }

  /** The node map of a declared operation. */
  function NodesFor(res: Resource, op: OperationType.OpType): map<string, bool>
    requires OperationType.IsDeclared(op)
  {
    if op == OperationType.READ then res.readNodes
    else if op == OperationType.WRITE then res.writeNodes
    else if op == OperationType.MODIFY then res.modifyNodes
    else res.deleteNodes
  }

  /** `res` with the node map of a declared operation replaced by `m` and
      the other three kept. */
  function WithNodes(res: Resource, op: OperationType.OpType, m: map<string, bool>): (r: Resource)
    requires OperationType.IsDeclared(op)
    ensures NodesFor(r, op) == m && r.id == res.id && r.flags == res.flags
    ensures forall o :: OperationType.IsDeclared(o) && o != op ==> NodesFor(r, o) == NodesFor(res, o)
  {
    if op == OperationType.READ then res.(readNodes := m)
    else if op == OperationType.WRITE then res.(writeNodes := m)
    else if op == OperationType.MODIFY then res.(modifyNodes := m)
    else res.(deleteNodes := m)
  }

  /** Every listed role set to `status`, every other entry kept. */
  function SetAll(m: map<string, bool>, roles: seq<string>, status: bool): (r: map<string, bool>)
    ensures forall x :: x in r <==> x in m || x in roles
    ensures forall x :: x in roles ==> r[x] == status
    ensures forall x :: x in m && x !in roles ==> r[x] == m[x]
    decreases |roles|
  {
    if |roles| == 0 then m
    else
      var n := |roles| - 1;
      assert roles == roles[..n] + [roles[n]];
      SetAll(m, roles[..n], status)[roles[n] := status]
  }

  /** Every listed role removed, every other entry kept. */
  function DeleteAll(m: map<string, bool>, roles: seq<string>): (r: map<string, bool>)
    ensures forall x :: x in r <==> x in m && x !in roles
    ensures forall x :: x in r ==> r[x] == m[x]
    decreases |roles|
  {
    if |roles| == 0 then m
    else
      var n := |roles| - 1;
      assert roles == roles[..n] + [roles[n]];
      DeleteAll(m, roles[..n]) - {roles[n]}
  }

  /** The switch inside the grant and revoke loops: with no roles the loop
      body never runs; otherwise an undeclared operation stops it at its
      first role with "bad permission type" before anything is changed, and
      a declared one rewrites that operation's node map only. */
  function PatchNodes(res: Resource, roles: seq<string>, op: OperationType.OpType, grant: bool, status: bool): (r: Result<Resource>)
    ensures |roles| == 0 ==> r == Ok(res)
    ensures |roles| > 0 && !OperationType.IsDeclared(op) ==> r == Err(ErrBadPermissionType)
    ensures r.Ok? || r.Err?
    ensures r.Ok? && |roles| > 0 ==> (OperationType.IsDeclared(op)
      && r.value.id == res.id && r.value.flags == res.flags
      && NodesFor(r.value, op) == (if grant then SetAll(NodesFor(res, op), roles, status) else DeleteAll(NodesFor(res, op), roles))
      && forall o :: OperationType.IsDeclared(o) && o != op ==> NodesFor(r.value, o) == NodesFor(res, o))
  {
    if |roles| == 0 then Ok(res)
    else if !OperationType.IsDeclared(op) then Err(ErrBadPermissionType)
    else if grant then Ok(WithNodes(res, op, SetAll(NodesFor(res, op), roles, status)))
    else Ok(WithNodes(res, op, DeleteAll(NodesFor(res, op), roles)))
  }

  /** The entry a read of `id` through `c` answers: the cached pair on a
      hit, the store's answer on a miss. */
  function Answer<T>(c: Cache<T>, id: string, fetch: Entry<T>): Entry<T>
  {
    if id in c then c[id] else fetch
  }

  /** Whether a grant or revoke whose store write and read both succeeded
      gets through its switch: no roles, or a declared operation. */
  predicate Patchable(roles: seq<string>, op: OperationType.OpType)
  {
    |roles| == 0 || OperationType.IsDeclared(op)
  }

  /** The common shape of `GrantPermission` and `RevokePermission`: the
      store is written first and its error returned untouched; then the
      resource is read through the cache; a failed read is returned; a
      failed patch is returned without putting the resource back; otherwise
      the patched resource is cached with no error. */
  function ChangePermission(c: CacheDB, p: EntitiesRole.Permission, roles: seq<string>, grant: bool,
                            storeErr: Option<Error>, fetch: Entry<Resource>): (r: (Option<Error>, CacheDB))
    // a refused store write leaves the cache alone
    ensures storeErr.Some? ==> r == (storeErr, c)
    ensures r.1.keys == c.keys
    // the call succeeds exactly when the write, the read and the switch do
    ensures r.0.None? <==>
      storeErr.None? && Answer(c.resources, p.resourceID, fetch).err.None? && Patchable(roles, p.typeRWMD)
    // after an accepted write the resource is cached and no other id moves
    ensures storeErr.None? ==> r.1.resources.Keys == c.resources.Keys + {p.resourceID}
    ensures storeErr.None? ==>
      forall x :: x in c.resources && x != p.resourceID ==> r.1.resources[x] == c.resources[x]
    // a failed read is returned and its negative entry stays cached
    ensures storeErr.None? && Answer(c.resources, p.resourceID, fetch).err.Some? ==>
      r.0 == Answer(c.resources, p.resourceID, fetch).err
      && r.1.resources[p.resourceID] == Answer(c.resources, p.resourceID, fetch)
    // a bad operation type is reported and the resource is not put back
    ensures storeErr.None? && Answer(c.resources, p.resourceID, fetch).err.None? && !Patchable(roles, p.typeRWMD) ==>
      r.0 == Some(ErrBadPermissionType)
      && r.1.resources[p.resourceID] == Answer(c.resources, p.resourceID, fetch)
    // on success the cached resource is the one read with the operation's
    // node map patched, everything else about it kept
    ensures r.0.None? ==>
      var read := Answer(c.resources, p.resourceID, fetch).val;
      var after := r.1.resources[p.resourceID];
      after.err.None? && after.val.id == read.id && after.val.flags == read.flags
      && (|roles| == 0 ==> after.val == read)
      && (|roles| > 0 ==>
            NodesFor(after.val, p.typeRWMD)
              == (if grant then SetAll(NodesFor(read, p.typeRWMD), roles, p.status)
                  else DeleteAll(NodesFor(read, p.typeRWMD), roles))
            && forall o :: OperationType.IsDeclared(o) && o != p.typeRWMD ==>
                 NodesFor(after.val, o) == NodesFor(read, o))
  {
    if storeErr.Some? then (storeErr, c)
    else
      var read := RetrieveData(c.resources, p.resourceID, fetch);
      if read.entry.err.Some? then (read.entry.err, c.(resources := read.cache))
      else
        var patch := PatchNodes(read.entry.val, roles, p.typeRWMD, grant, p.status);
        if !patch.Ok? then (Some(patch.error), c.(resources := read.cache))
        else (None, c.(resources := read.cache[p.resourceID := Entry(patch.value, None)]))
  }

  /** `GrantPermission`: on success every listed role has the granted
      status in that operation's node map, and every role not listed keeps
      the node it had. */
  function GrantPermission(c: CacheDB, p: EntitiesRole.Permission, roles: seq<string>,
                           storeErr: Option<Error>, fetch: Entry<Resource>): (r: (Option<Error>, CacheDB))
    ensures storeErr.Some? ==> r == (storeErr, c)
    ensures r.1.keys == c.keys
    ensures r.0.None? <==>
      storeErr.None? && Answer(c.resources, p.resourceID, fetch).err.None? && Patchable(roles, p.typeRWMD)
    ensures storeErr.None? ==> r.1.resources.Keys == c.resources.Keys + {p.resourceID}
    ensures r.0.None? && |roles| > 0 ==>
      var read := Answer(c.resources, p.resourceID, fetch).val;
      var nodes := NodesFor(r.1.resources[p.resourceID].val, p.typeRWMD);
      (forall role :: role in nodes <==> role in NodesFor(read, p.typeRWMD) || role in roles)
      && (forall role :: role in roles ==> nodes[role] == p.status)
      && forall role :: role in NodesFor(read, p.typeRWMD) && role !in roles ==>
           nodes[role] == NodesFor(read, p.typeRWMD)[role]
  {
    ChangePermission(c, p, roles, true, storeErr, fetch)
  }

  /** `RevokePermission`: on success the listed roles have no node for that
      operation, and every other role keeps the node it had. */
  function RevokePermission(c: CacheDB, p: EntitiesRole.Permission, roles: seq<string>,
                            storeErr: Option<Error>, fetch: Entry<Resource>): (r: (Option<Error>, CacheDB))
    ensures storeErr.Some? ==> r == (storeErr, c)
    ensures r.1.keys == c.keys
    ensures r.0.None? <==>
      storeErr.None? && Answer(c.resources, p.resourceID, fetch).err.None? && Patchable(roles, p.typeRWMD)
    ensures storeErr.None? ==> r.1.resources.Keys == c.resources.Keys + {p.resourceID}
    ensures r.0.None? && |roles| > 0 ==>
      var read := Answer(c.resources, p.resourceID, fetch).val;
      var nodes := NodesFor(r.1.resources[p.resourceID].val, p.typeRWMD);
      (forall role :: role in nodes <==> role in NodesFor(read, p.typeRWMD) && role !in roles)
      && forall role :: role in nodes ==> nodes[role] == NodesFor(read, p.typeRWMD)[role]
  {
    ChangePermission(c, p, roles, false, storeErr, fetch)
  }

  /** After a successful grant of a declared operation, the cached resource
      gives every listed role the granted status in that operation's node
      map, and the other three maps are what was read. */
  lemma GrantSetsNodes(c: CacheDB, p: EntitiesRole.Permission, roles: seq<string>, fetch: Entry<Resource>)
    requires OperationType.IsDeclared(p.typeRWMD)
    requires GrantPermission(c, p, roles, None, fetch).0.None?
    ensures var after := GrantPermission(c, p, roles, None, fetch).1;
      var read := RetrieveData(c.resources, p.resourceID, fetch).entry.val;
      p.resourceID in after.resources
      && (forall role :: role in roles ==> NodesFor(after.resources[p.resourceID].val, p.typeRWMD)[role] == p.status)
      && forall o :: OperationType.IsDeclared(o) && o != p.typeRWMD ==>
           NodesFor(after.resources[p.resourceID].val, o) == NodesFor(read, o)
  {
    var read := RetrieveData(c.resources, p.resourceID, fetch);
    if |roles| > 0 {
      assert PatchNodes(read.entry.val, roles, p.typeRWMD, true, p.status).Ok?;
    }
  }

  /** After a successful revoke the listed roles have no node for that
      operation, and every other node of every operation is as read. */
  lemma RevokeDeletesNodes(c: CacheDB, p: EntitiesRole.Permission, roles: seq<string>, fetch: Entry<Resource>)
    requires OperationType.IsDeclared(p.typeRWMD)
    requires RevokePermission(c, p, roles, None, fetch).0.None?
    ensures var after := RevokePermission(c, p, roles, None, fetch).1;
      var read := RetrieveData(c.resources, p.resourceID, fetch).entry.val;
      p.resourceID in after.resources
      && (forall role :: role in NodesFor(after.resources[p.resourceID].val, p.typeRWMD) <==>
            role in NodesFor(read, p.typeRWMD) && role !in roles)
      && forall o :: OperationType.IsDeclared(o) && o != p.typeRWMD ==>
           NodesFor(after.resources[p.resourceID].val, o) == NodesFor(read, o)
  {
    var read := RetrieveData(c.resources, p.resourceID, fetch);
    if |roles| > 0 {
      assert PatchNodes(read.entry.val, roles, p.typeRWMD, false, p.status).Ok?;
    }
  }

  /** With an operation outside Read..Delete and at least one role, a grant
      the store accepted still reports "bad permission type", and the
      resource is not put back: the cache holds whatever the read left. */
  lemma BadTypeNotReput(c: CacheDB, p: EntitiesRole.Permission, roles: seq<string>, fetch: Entry<Resource>)
    requires !OperationType.IsDeclared(p.typeRWMD) && |roles| > 0
    requires RetrieveData(c.resources, p.resourceID, fetch).entry.err.None?
    ensures GrantPermission(c, p, roles, None, fetch) ==
      (Some(ErrBadPermissionType), c.(resources := RetrieveData(c.resources, p.resourceID, fetch).cache))
    ensures RevokePermission(c, p, roles, None, fetch) ==
      (Some(ErrBadPermissionType), c.(resources := RetrieveData(c.resources, p.resourceID, fetch).cache))
  {
  }

  /** `GrantPermission` and `RevokePermission` as written: the loop assigns
      into, or deletes from, the node map of the operation named. Go panics
      on an assignment into a map that was never made, while a delete from
      one does nothing. A Dafny map cannot be nil, so whether that
      operation's map was made is the parameter `nodesMade`; the zero
      resource the old store read declares has none made, and a resource
      created by a caller without nodes has none either. An undeclared
      operation is refused before any map is touched. The panic comes after
      the read, so the read stays cached. */
  function ChangePermissionAsWritten(c: CacheDB, p: EntitiesRole.Permission, roles: seq<string>, grant: bool,
                                     storeErr: Option<Error>, fetch: Entry<Resource>, nodesMade: bool): (r: (Result<()>, CacheDB))
    ensures r.0.Panic? <==>
      storeErr.None? && Answer(c.resources, p.resourceID, fetch).err.None?
      && |roles| > 0 && OperationType.IsDeclared(p.typeRWMD) && grant && !nodesMade
    ensures r.0.Panic? ==> r.1 == c.(resources := RetrieveData(c.resources, p.resourceID, fetch).cache)
    // without the panic the call is the intended one
    ensures !r.0.Panic? ==>
      r.1 == ChangePermission(c, p, roles, grant, storeErr, fetch).1
      && (r.0.Ok? <==> ChangePermission(c, p, roles, grant, storeErr, fetch).0.None?)
      && (r.0.Err? ==> ChangePermission(c, p, roles, grant, storeErr, fetch).0 == Some(r.0.error))
  {
    if storeErr.Some? then (Err(storeErr.value), c)
    else
      var read := RetrieveData(c.resources, p.resourceID, fetch);
      if read.entry.err.Some? then (Err(read.entry.err.value), c.(resources := read.cache))
      else if |roles| > 0 && OperationType.IsDeclared(p.typeRWMD) && grant && !nodesMade then
        (Panic("assignment to entry in nil map"), c.(resources := read.cache))
      else
        var patch := PatchNodes(read.entry.val, roles, p.typeRWMD, grant, p.status);
        if !patch.Ok? then (Err(patch.error), c.(resources := read.cache))
        else (Ok(()), c.(resources := read.cache[p.resourceID := Entry(patch.value, None)]))
  }

  /** Once the zero resource is cached, granting a declared operation to
      any role panics as written, where the intended grant succeeds; revoking
      from it succeeds either way. */
  lemma GrantZeroPanicsAsWritten(c: CacheDB, p: EntitiesRole.Permission, roles: seq<string>, fetch: Entry<Resource>)
    requires c.resources == map[p.resourceID := Entry(DbimplSqlite.ZERO_RESOURCE, None)]
    requires OperationType.IsDeclared(p.typeRWMD) && |roles| > 0
    ensures ChangePermissionAsWritten(c, p, roles, true, None, fetch, false).0.Panic?
    ensures GrantPermission(c, p, roles, None, fetch).0.None?
    ensures ChangePermissionAsWritten(c, p, roles, false, None, fetch, false).0.Ok?
  {
  }

  /** A revoke never panics as written, made map or not: it is the intended
      revoke. */
  lemma RevokeNeverPanicsAsWritten(c: CacheDB, p: EntitiesRole.Permission, roles: seq<string>,
                                   storeErr: Option<Error>, fetch: Entry<Resource>, nodesMade: bool)
    ensures var r := ChangePermissionAsWritten(c, p, roles, false, storeErr, fetch, nodesMade);
      !r.0.Panic? && r.1 == RevokePermission(c, p, roles, storeErr, fetch).1
      && (r.0.Ok? <==> RevokePermission(c, p, roles, storeErr, fetch).0.None?)
  {
  }
}
