/** Resource storage (`impl/sqlite/resource.go`): a resource row with its
    flags, and the permission nodes that name the resource. */
module ImplResource {
  import opened Errors
  import opened Schema
  import Q = ImplQueryManager
  import Seqs
  import OperationType
  import EntitiesRole
  import R = EntitiesResource
  import DbimplPermission

  /** One row of the resource's role-permission join: a role, an operation
      and the node's deny/allow status. */
  datatype Grant = Grant(role: string, op: OperationType.OpType, allow: bool)

  function Access(g: Grant): R.OperationAccess {
    R.OperationAccess(g.role, g.op)
  }

  /** The position of the first node with id `id`, or `|perms|`. */
  function NodeIndex(perms: seq<PermRow>, id: int): (i: nat)
    ensures i <= |perms|
    ensures i < |perms| ==> perms[i].id == id
    ensures forall j :: 0 <= j < i ==> perms[j].id != id
  {
    if |perms| == 0 then 0
    else if perms[0].id == id then 0
    else 1 + NodeIndex(perms[1..], id)
  }

  /** The join rows for resource `rid` contributed by `links`, in link order:
      one per link whose node exists and names the resource. */
  function JoinRows(perms: seq<PermRow>, links: seq<RolePermLink>, rid: string): (rows: seq<Grant>)
    ensures |rows| <= |links|
  {
    if |links| == 0 then []
    else
      var i := NodeIndex(perms, links[0].permID);
      var head := if i < |perms| && perms[i].resourceID == rid then [Grant(links[0].roleID, perms[i].op, perms[i].allow)] else [];
      head + JoinRows(perms, links[1..], rid)
  }

  lemma SeqAssoc<T>(x: seq<T>, y: seq<T>, z: seq<T>)
    ensures x + (y + z) == (x + y) + z
  {
  }

  lemma {:induction false} JoinRowsConcat(perms: seq<PermRow>, a: seq<RolePermLink>, b: seq<RolePermLink>, rid: string)
    ensures JoinRows(perms, a + b, rid) == JoinRows(perms, a, rid) + JoinRows(perms, b, rid)
    decreases |a|
  {
    if |a| == 0 {
      assert a + b == b;
    } else {
      assert (a + b)[0] == a[0];
      assert (a + b)[1..] == a[1..] + b;
      var i := NodeIndex(perms, a[0].permID);
      var head := if i < |perms| && perms[i].resourceID == rid then [Grant(a[0].roleID, perms[i].op, perms[i].allow)] else [];
      assert JoinRows(perms, a + b, rid) == head + JoinRows(perms, a[1..] + b, rid);
      assert JoinRows(perms, a, rid) == head + JoinRows(perms, a[1..], rid);
      JoinRowsConcat(perms, a[1..], b, rid);
      SeqAssoc(head, JoinRows(perms, a[1..], rid), JoinRows(perms, b, rid));
    }
  }

  /** The node map built from the join rows, a later row overwriting an
      earlier one for the same (role, operation). */
  function Fold(rows: seq<Grant>): (m: map<R.OperationAccess, bool>)
    ensures forall a :: a in m <==> exists i :: 0 <= i < |rows| && Access(rows[i]) == a
    ensures forall i :: 0 <= i < |rows| && (forall j :: i < j < |rows| ==> Access(rows[j]) != Access(rows[i])) ==>
      m[Access(rows[i])] == rows[i].allow
    decreases |rows|
  {
    if |rows| == 0 then map[]
    else
      var rest := Fold(rows[1..]);
      var m := if Access(rows[0]) in rest then rest else rest[Access(rows[0]) := rows[0].allow];
      FoldStep(rows, rest, m);
      m
  }

  /** One step of `Fold`: what the map built from the later rows says,
      carried over to the map that also holds the first row. */
  lemma FoldStep(rows: seq<Grant>, rest: map<R.OperationAccess, bool>, m: map<R.OperationAccess, bool>)
    requires |rows| > 0
    requires forall a :: a in rest <==> exists i :: 0 <= i < |rows[1..]| && Access(rows[1..][i]) == a
    requires forall i :: 0 <= i < |rows[1..]| && (forall j :: i < j < |rows[1..]| ==> Access(rows[1..][j]) != Access(rows[1..][i])) ==>
      rest[Access(rows[1..][i])] == rows[1..][i].allow
    requires m == if Access(rows[0]) in rest then rest else rest[Access(rows[0]) := rows[0].allow]
    ensures forall a :: a in m <==> exists i :: 0 <= i < |rows| && Access(rows[i]) == a
    ensures forall i :: 0 <= i < |rows| && (forall j :: i < j < |rows| ==> Access(rows[j]) != Access(rows[i])) ==>
      m[Access(rows[i])] == rows[i].allow
  {
    var tail := rows[1..];
    forall a ensures a in m <==> exists i :: 0 <= i < |rows| && Access(rows[i]) == a {
      if a in m && a != Access(rows[0]) {
        var k :| 0 <= k < |tail| && Access(tail[k]) == a;
        assert Access(rows[k + 1]) == a;
      }
      if exists i :: 0 <= i < |rows| && Access(rows[i]) == a {
        var i :| 0 <= i < |rows| && Access(rows[i]) == a;
        if i > 0 {
          assert Access(tail[i - 1]) == a;
        }
      }
    }
    forall i | 0 <= i < |rows| && (forall j :: i < j < |rows| ==> Access(rows[j]) != Access(rows[i]))
      ensures m[Access(rows[i])] == rows[i].allow
    {
      if i == 0 {
        assert forall k :: 0 <= k < |tail| ==> tail[k] == rows[k + 1];
      } else {
        assert tail[i - 1] == rows[i];
        assert forall j :: i - 1 < j < |tail| ==> Access(tail[j]) != Access(tail[i - 1]) by {
          forall j | i - 1 < j < |tail| ensures Access(tail[j]) != Access(tail[i - 1]) {
            assert tail[j] == rows[j + 1];
          }
        }
        assert Access(rows[i]) != Access(rows[0]) || Access(rows[0]) in rest;
      }
    }
  }

  /** `CreateResource`: insert the resource row, then its permissions, in
      one transaction. The permission writer is a parameter: its code is not
      part of this model. */
  function CreateResource(t: Tables, r: R.Resource, createPerms: Tables -> Result<Tables>): (tx: Tx<()>)
    ensures r.id in t.resources ==> tx == Tx(Err(ErrConstraint("Resources")), t)
    ensures tx.result.Ok? <==> r.id !in t.resources && createPerms(t.(resources := t.resources[r.id := r.flags])).Ok?
    ensures tx.result.Ok? ==> tx.after == createPerms(t.(resources := t.resources[r.id := r.flags])).value
    ensures !tx.result.Ok? ==> tx.after == t
  {
    var t1 := Q.InsResourceData(t, r.id, r.flags);
    if !t1.Ok? then Tx(Err(t1.error), t)
    else
      var t2 := createPerms(t1.value);
      if t2.Ok? then Tx(Ok(()), t2.value)
      else if t2.Err? then Tx(Err(t2.error), t)
      else Tx(Panic(t2.reason), t)
  }

  /** `DeleteResource`: delete every node naming the resource, then the
      resource row, in one transaction. Links to the deleted nodes are not
      removed. */
  function DeleteResource(t: Tables, id: string): (tx: Tx<()>)
    ensures tx.result.Ok?
    ensures tx.after.resources == t.resources - {id}
    ensures forall p :: p in tx.after.perms <==> p in t.perms && p.resourceID != id
    ensures tx.after.keys == t.keys && tx.after.roles == t.roles && tx.after.keyRoles == t.keyRoles
      && tx.after.rolePerms == t.rolePerms && tx.after.rateLimits == t.rateLimits
    ensures Valid(t) ==> Valid(tx.after)
  {
    var t1 := Q.DelPermissionByResourceID(t, id);
    DeleteNodesKeepsValid(t, id);
    Tx(Ok(()), Q.DelResourceByID(t1, id))
  }

  lemma DeleteNodesKeepsValid(t: Tables, id: string)
    ensures Valid(t) ==> Valid(Q.DelPermissionByResourceID(t, id))
  {
    if Valid(t) {
      var keep := (p: PermRow) => p.resourceID != id;
      Seqs.FilterKeepsPairwise(t.perms, keep, (a: PermRow, b: PermRow) => Triple(a) != Triple(b));
      Seqs.FilterKeepsPairwise(t.perms, keep, (a: PermRow, b: PermRow) => a.id < b.id);
    }
  }

  /** Deleting a resource just created, with no nodes of its own, restores
      the store exactly. */
  lemma {:induction false} DeleteUndoesCreate(t: Tables, r: R.Resource)
    requires r.id !in t.resources
    requires forall i :: 0 <= i < |t.perms| ==> t.perms[i].resourceID != r.id
    ensures var created := CreateResource(t, r, (s: Tables) => Ok(s));
      created.result.Ok? && DeleteResource(created.after, r.id).after == t
  {
    var keep := (p: PermRow) => p.resourceID != r.id;
    Seqs.FilterAll(t.perms, keep);
    assert t.resources[r.id := r.flags] - {r.id} == t.resources;
  }

  /** `GetResourceData` as written: the node map is never allocated and the
      id never set, so a resource with any join row panics on the first map
      write, and one without rows comes back with an empty id. */
  function GetResourceDataAsWritten(t: Tables, id: string): (r: Result<R.Resource>)
    ensures id !in t.resources ==> r == Err(ErrNoRows)
    ensures id in t.resources && |JoinRows(t.perms, t.rolePerms, id)| > 0 ==> r.Panic?
    ensures r.Ok? ==> r.value == R.Resource("", t.resources[id], map[])
  {
    if id !in t.resources then Err(ErrNoRows)
    else if |JoinRows(t.perms, t.rolePerms, id)| > 0 then Panic("assignment to entry in nil map")
    else Ok(R.Resource("", t.resources[id], map[]))
  }

  /** `GetResourceData` with the map allocated and the id set: the flags,
      and for each (role, operation) named by a join row the status of the
      last such row, later rows overwriting earlier ones. */
  function GetResourceData(t: Tables, id: string): (r: Result<R.Resource>)
    ensures r.Ok? <==> id in t.resources
    ensures !r.Ok? ==> r == Err(ErrNoRows)
    ensures r.Ok? ==> r.value.id == id && r.value.flags == t.resources[id]
    ensures r.Ok? ==> forall a :: a in r.value.operationNodes <==>
      exists i :: 0 <= i < |JoinRows(t.perms, t.rolePerms, id)| && Access(JoinRows(t.perms, t.rolePerms, id)[i]) == a
    ensures r.Ok? ==> var rows := JoinRows(t.perms, t.rolePerms, id);
      forall i :: 0 <= i < |rows| && (forall j :: i < j < |rows| ==> Access(rows[j]) != Access(rows[i])) ==>
        r.value.operationNodes[Access(rows[i])] == rows[i].allow
    ensures r.Ok? ==> r.value.operationNodes == Fold(JoinRows(t.perms, t.rolePerms, id))
  {
    var flags := Q.GetResourceFlagsByID(t, id);
    if !flags.Ok? then Err(flags.error)
    else Ok(R.Resource(id, flags.value, Fold(JoinRows(t.perms, t.rolePerms, id))))
  }

  /** A resource with one granted role panics when read as written, and
      reads back with that role's node once corrected. */
  lemma ReadAsWrittenPanics(t: Tables)
    requires t == Tables(map[], map[], [], map["res" := 0], [PermRow(1, "res", 0, true)], [RolePermLink("admin", 1)], map[], 2)
    ensures GetResourceDataAsWritten(t, "res").Panic?
    ensures GetResourceData(t, "res").value.operationNodes == map[R.OperationAccess("admin", 0) := true]
  {
    assert JoinRows(t.perms, t.rolePerms, "res") == [Grant("admin", 0, true)];
  }

  // ---- grant, then read back ----

  /** The join rows a grant's new links contribute. */
  lemma {:induction false} NewLinkRows(perms: seq<PermRow>, roles: seq<string>, id: int, p: EntitiesRole.Permission, k: nat)
    requires k < |perms| && perms[k] == PermRow(id, p.resourceID, p.typeRWMD, p.status)
    requires forall j :: 0 <= j < k ==> perms[j].id != id
    ensures var rows := JoinRows(perms, DbimplPermission.Links(roles, id), p.resourceID);
      |rows| == |roles| && forall i :: 0 <= i < |roles| ==> rows[i] == Grant(roles[i], p.typeRWMD, p.status)
    decreases |roles|
  {
    if |roles| > 0 {
      assert NodeIndex(perms, id) == k;
      var links := DbimplPermission.Links(roles, id);
      assert links[1..] == DbimplPermission.Links(roles[1..], id);
      NewLinkRows(perms, roles[1..], id, p, k);
    }
  }

  /** Rows appended for distinct roles, all with the same operation and
      status, decide those roles' entries in the folded map. */
  lemma LastRowsDecide(front: seq<Grant>, back: seq<Grant>, roles: seq<string>, op: OperationType.OpType, allow: bool, k: nat)
    requires Seqs.NoDuplicates(roles) && k < |roles|
    requires |back| == |roles| && forall i :: 0 <= i < |roles| ==> back[i] == Grant(roles[i], op, allow)
    ensures R.OperationAccess(roles[k], op) in Fold(front + back)
    ensures Fold(front + back)[R.OperationAccess(roles[k], op)] == allow
  {
    var rows := front + back;
    var i := |front| + k;
    assert rows[i] == Grant(roles[k], op, allow);
    forall j | i < j < |rows| ensures Access(rows[j]) != Access(rows[i]) {
      assert rows[j] == back[j - |front|];
      assert roles[j - |front|] != roles[k];
    }
  }

  /** After a grant, reading the resource back shows each granted role's
      node for the operation with the granted status, whatever links the
      role had before. */
  lemma GrantThenRead(t: Tables, p: EntitiesRole.Permission, roles: seq<string>, k: nat)
    requires Valid(t) && p.resourceID in t.resources
    requires DbimplPermission.GrantPermission(t, p, roles).result.Ok?
    requires k < |roles|
    ensures var after := DbimplPermission.GrantPermission(t, p, roles).after;
      GetResourceData(after, p.resourceID).Ok?
      && R.OperationAccess(roles[k], p.typeRWMD) in GetResourceData(after, p.resourceID).value.operationNodes
      && GetResourceData(after, p.resourceID).value.operationNodes[R.OperationAccess(roles[k], p.typeRWMD)] == p.status
  {
    var (t1, id) := DbimplPermission.ConstructPermNode(t, p);
    var after := DbimplPermission.GrantPermission(t, p, roles).after;
    DbimplPermission.GrantAppendsLinks(t, p, roles);
    var links := DbimplPermission.Links(roles, id);
    var n :| 0 <= n < |t1.perms| && t1.perms[n] == PermRow(id, p.resourceID, p.typeRWMD, p.status);
    assert forall j :: 0 <= j < n ==> t1.perms[j].id != id by {
      assert IdsAscending(t1.perms, t1.nextPermID);
    }
    JoinRowsConcat(t1.perms, t1.rolePerms, links, p.resourceID);
    NewLinkRows(t1.perms, roles, id, p, n);
    LastRowsDecide(JoinRows(t1.perms, t1.rolePerms, p.resourceID), JoinRows(t1.perms, links, p.resourceID),
      roles, p.typeRWMD, p.status, k);
  }

  // ---- listing ----

  /** `GetResourceIDs`: one page of resource ids in table-scan order
      (`order`, which lists every resource once). A failing query (`fault`)
      yields no ids and its error. */
  function GetResourceIDs(t: Tables, order: seq<string>, pageSize: int, offset: int, fault: Option<Error>): (r: Result<seq<string>>)
    requires Seqs.NoDuplicates(order) && forall id :: id in order <==> id in t.resources
    ensures fault.Some? ==> r == Err(fault.value)
    ensures fault.None? ==> r.Ok?
    ensures r.Ok? ==> forall id :: id in r.value ==> id in t.resources
    ensures r.Ok? ==> Seqs.NoDuplicates(r.value)
    ensures r.Ok? && pageSize >= 0 ==> |r.value| <= pageSize
    ensures r.Ok? && offset >= 0 ==> r.value <= order[if offset > |order| then |order| else offset..]
  {
    if fault.Some? then Err(fault.value)
    else
      var page := Seqs.Page(order, pageSize, offset);
      var start := if offset < 0 then 0 else if offset > |order| then |order| else offset;
      assert forall i :: 0 <= i < |page| ==> page[i] == order[start + i];
      Ok(page)
  }

  /** `GetResources` as written: an id-listing failure is swallowed, and the
      result slice is made with length zero and then indexed, which panics
      as soon as there is one id. */
  function GetResourcesAsWritten(t: Tables, order: seq<string>, pageSize: int, offset: int, fault: Option<Error>): (r: Result<seq<R.Resource>>)
    requires Seqs.NoDuplicates(order) && forall id :: id in order <==> id in t.resources
    ensures fault.Some? ==> r == Ok([])
    ensures fault.None? ==> (r.Panic? <==> |GetResourceIDs(t, order, pageSize, offset, fault).value| > 0)
    ensures r.Ok? ==> r.value == []
  {
    var ids := GetResourceIDs(t, order, pageSize, offset, fault);
    if !ids.Ok? then Ok([])
    else if |ids.value| > 0 then Panic("index out of range [0] with length 0")
    else Ok([])
  }

  /** Each id's resource, up to the first that cannot be read. */
  function ResourcesOf(t: Tables, ids: seq<string>): (r: Result<seq<R.Resource>>)
    ensures r.Ok? <==> forall i :: 0 <= i < |ids| ==> ids[i] in t.resources
    ensures r.Ok? ==> |r.value| == |ids| && forall i :: 0 <= i < |ids| ==> Ok(r.value[i]) == GetResourceData(t, ids[i])
    ensures !r.Ok? ==> r == Err(ErrNoRows)
  {
    if |ids| == 0 then Ok([])
    else
      var first := GetResourceData(t, ids[0]);
      if !first.Ok? then Err(first.error)
      else
        var rest := ResourcesOf(t, ids[1..]);
        if !rest.Ok? then rest
        else
          ConsMatches(ids, first.value, rest.value, id => GetResourceData(t, id));
          Ok([first.value] + rest.value)
  }

  /** A value matching the first element, in front of values matching the
      rest, matches the whole list pointwise. */
  lemma ConsMatches<A, B>(xs: seq<A>, head: B, rest: seq<B>, f: A -> Result<B>)
    requires |xs| > 0 && Ok(head) == f(xs[0])
    requires |rest| == |xs| - 1
    requires forall i :: 0 <= i < |rest| ==> Ok(rest[i]) == f(xs[1..][i])
    ensures forall i :: 0 <= i < |xs| ==> Ok(([head] + rest)[i]) == f(xs[i])
  {
    assert forall i :: 1 <= i < |xs| ==> xs[i] == xs[1..][i - 1];
  }

  /** `GetResources` with the resources appended: one per listed id, in page
      order. A listing failure still yields an empty list and no error. */
  function GetResources(t: Tables, order: seq<string>, pageSize: int, offset: int, fault: Option<Error>): (r: Result<seq<R.Resource>>)
    requires Seqs.NoDuplicates(order) && forall id :: id in order <==> id in t.resources
    ensures fault.Some? ==> r == Ok([])
    ensures r.Ok?
    ensures fault.None? ==> var ids := GetResourceIDs(t, order, pageSize, offset, fault).value;
      |r.value| == |ids| && forall i :: 0 <= i < |ids| ==> r.value[i].id == ids[i]
  {
    var ids := GetResourceIDs(t, order, pageSize, offset, fault);
    if !ids.Ok? then Ok([])
    else ResourcesOf(t, ids.value)
  }
}
