/** Granting and revoking permission nodes (`dbimpl/sqlite/permission.go`).
    A node is a (resource, operation, deny/allow) triple shared by every role
    linked to it through RolePermIntersect. */
module DbimplPermission {
  import opened Errors
  import opened Schema
  import Q = ImplQueryManager
  import EntitiesRole
  import Seqs

  /** The RolePermIntersect rows linking each of `roles` to node `id`, in order. */
  function Links(roles: seq<string>, id: int): (ls: seq<RolePermLink>)
    ensures |ls| == |roles|
    ensures forall i :: 0 <= i < |ls| ==> ls[i] == RolePermLink(roles[i], id)
  {
    if |roles| == 0 then [] else [RolePermLink(roles[0], id)] + Links(roles[1..], id)
  }

  /** `constructPermNode`: reuse the node with the permission's triple, or
      insert one and use its last-insert id. */
  function ConstructPermNode(t: Tables, p: EntitiesRole.Permission): (r: (Tables, int))
    ensures Q.GetPermissionIDByData(t, p.resourceID, p.typeRWMD, p.status).Ok? ==>
      r == (t, Q.GetPermissionIDByData(t, p.resourceID, p.typeRWMD, p.status).value)
    ensures !Q.GetPermissionIDByData(t, p.resourceID, p.typeRWMD, p.status).Ok? ==>
      r.1 == t.nextPermID
      && r.0 == t.(perms := t.perms + [PermRow(r.1, p.resourceID, p.typeRWMD, p.status)], nextPermID := t.nextPermID + 1)
    ensures exists i :: 0 <= i < |r.0.perms| && r.0.perms[i] == PermRow(r.1, p.resourceID, p.typeRWMD, p.status)
    ensures Valid(t) ==> Valid(r.0)
  {
    var found := Q.GetPermissionIDByData(t, p.resourceID, p.typeRWMD, p.status);
    if found.Ok? then (t, found.value)
    else
      var r := Q.InsPermissionData(t, p.resourceID, p.typeRWMD, p.status);
      assert r.0.perms[|t.perms|] == PermRow(r.1, p.resourceID, p.typeRWMD, p.status);
      r
  }

  /** The `grantPermNode` loop: link each role to node `id`, stopping at the
      first failed insert. */
  function GrantPermNodes(t: Tables, id: int, roles: seq<string>): (r: Result<Tables>)
    ensures r.Ok? <==> Grantable(t.rolePerms, id, roles)
    ensures r.Ok? ==> r.value == t.(rolePerms := t.rolePerms + Links(roles, id))
    ensures !r.Ok? ==> r.Err?
    decreases |roles|
  {
    if |roles| == 0 then Ok(t)
    else
      var first := Q.InsRolePermIntersectData(t, roles[0], id);
      if !first.Ok? then first
      else
        var rest := GrantPermNodes(first.value, id, roles[1..]);
        GrantableStep(t.rolePerms, id, roles);
        LinksCons(t.rolePerms, roles, id);
        rest
  }

  /** Linking the first role, then the others, links all of them in order. */
  lemma LinksCons(ls: seq<RolePermLink>, roles: seq<string>, id: int)
    requires |roles| > 0
    ensures (ls + [RolePermLink(roles[0], id)]) + Links(roles[1..], id) == ls + Links(roles, id)
  {
    assert Links(roles, id) == [RolePermLink(roles[0], id)] + Links(roles[1..], id);
  }

  /** Every role is listed once and none is linked to node `id` yet: exactly
      the inputs for which all the inserts of a grant succeed. */
  predicate Grantable(links: seq<RolePermLink>, id: int, roles: seq<string>) {
    Seqs.NoDuplicates(roles) && forall i :: 0 <= i < |roles| ==> RolePermLink(roles[i], id) !in links
  }

  lemma GrantableStep(links: seq<RolePermLink>, id: int, roles: seq<string>)
    requires |roles| > 0
    ensures Grantable(links, id, roles) <==>
      RolePermLink(roles[0], id) !in links && Grantable(links + [RolePermLink(roles[0], id)], id, roles[1..])
  {
    var l0 := RolePermLink(roles[0], id);
    if RolePermLink(roles[0], id) !in links && Grantable(links + [l0], id, roles[1..]) {
      forall i, j | 0 <= i < j < |roles| ensures roles[i] != roles[j] {
        if i == 0 {
          assert RolePermLink(roles[1..][j - 1], id) !in links + [l0];
        } else {
          assert roles[1..][i - 1] != roles[1..][j - 1];
        }
      }
      forall i | 0 <= i < |roles| ensures RolePermLink(roles[i], id) !in links {
        if i > 0 {
          assert RolePermLink(roles[1..][i - 1], id) !in links + [l0];
        }
      }
    }
    if Grantable(links, id, roles) {
      forall i | 0 <= i < |roles[1..]| ensures RolePermLink(roles[1..][i], id) !in links + [l0] {
        assert roles[i + 1] != roles[0];
      }
      forall i, j | 0 <= i < j < |roles[1..]| ensures roles[1..][i] != roles[1..][j] {
        assert roles[i + 1] != roles[j + 1];
      }
    }
  }

  /** `GrantPermission`: find or create the node, then link every role to it,
      as one transaction. */
  function GrantPermission(t: Tables, p: EntitiesRole.Permission, roles: seq<string>): (r: Tx<()>)
    ensures !r.result.Ok? ==> r.result.Err? && r.after == t
    ensures r.result.Ok? ==> exists id ::
      (exists i :: 0 <= i < |r.after.perms| && r.after.perms[i] == PermRow(id, p.resourceID, p.typeRWMD, p.status))
      && forall k :: 0 <= k < |roles| ==> RolePermLink(roles[k], id) in r.after.rolePerms
    ensures Valid(t) ==> Valid(r.after)
    ensures r.after.keys == t.keys && r.after.roles == t.roles && r.after.keyRoles == t.keyRoles
      && r.after.resources == t.resources && r.after.rateLimits == t.rateLimits
  {
    var (t1, id) := ConstructPermNode(t, p);
    var granted := GrantPermNodes(t1, id, roles);
    if granted.Ok? then
      var t2 := granted.value;
      LinksPresent(t1.rolePerms, roles, id);
      LinksKeepUnique(t1.rolePerms, roles, id);
      Tx(Ok(()), t2)
    else Tx(Err(granted.error), t)
  }

  /** A successful grant keeps the node table ConstructPermNode produced and
      appends one link per role to it. */
  lemma GrantAppendsLinks(t: Tables, p: EntitiesRole.Permission, roles: seq<string>)
    requires GrantPermission(t, p, roles).result.Ok?
    ensures var (t1, id) := ConstructPermNode(t, p);
      var after := GrantPermission(t, p, roles).after;
      after.perms == t1.perms && after.rolePerms == t1.rolePerms + Links(roles, id)
      && after.resources == t.resources && Seqs.NoDuplicates(roles)
  {
  }

  /** After appending the links of `roles`, every role is linked. */
  lemma LinksPresent(ls: seq<RolePermLink>, roles: seq<string>, id: int)
    ensures forall k :: 0 <= k < |roles| ==> RolePermLink(roles[k], id) in ls + Links(roles, id)
  {
    forall k | 0 <= k < |roles| ensures RolePermLink(roles[k], id) in ls + Links(roles, id) {
      assert (ls + Links(roles, id))[|ls| + k] == RolePermLink(roles[k], id);
    }
  }

  /** Appending the links of distinct, not yet linked roles keeps the
      RolePermIntersect rows free of duplicates. */
  lemma LinksKeepUnique(ls: seq<RolePermLink>, roles: seq<string>, id: int)
    ensures Seqs.NoDuplicates(ls) && Seqs.NoDuplicates(roles)
      && (forall i :: 0 <= i < |roles| ==> RolePermLink(roles[i], id) !in ls)
      ==> Seqs.NoDuplicates(ls + Links(roles, id))
  {
    if Seqs.NoDuplicates(ls) && Seqs.NoDuplicates(roles) && (forall i :: 0 <= i < |roles| ==> RolePermLink(roles[i], id) !in ls) {
      var all := ls + Links(roles, id);
      forall i, j | 0 <= i < j < |all| ensures all[i] != all[j] {
        if j >= |ls| && i < |ls| {
          assert all[j] == RolePermLink(roles[j - |ls|], id);
        }
      }
    }
  }

  /** `RevokePermission`: unlink the listed roles from the node with the
      permission's triple, and delete that node if nothing references it any
      more. */
  function RevokePermission(t: Tables, p: EntitiesRole.Permission, roles: seq<string>): (r: Tx<()>)
    ensures !Q.GetPermissionIDByData(t, p.resourceID, p.typeRWMD, p.status).Ok? ==>
      r == Tx(Err(ErrNoRows), t)
    ensures Q.GetPermissionIDByData(t, p.resourceID, p.typeRWMD, p.status).Ok? ==>
      var id := Q.GetPermissionIDByData(t, p.resourceID, p.typeRWMD, p.status).value;
      r.result.Ok?
      && (forall l :: l in r.after.rolePerms <==> l in t.rolePerms && !(l.permID == id && l.roleID in roles))
      && (forall q :: q in r.after.perms <==> q in t.perms && (q.id != id || References(r.after, id) > 0))
    ensures r.after.keys == t.keys && r.after.roles == t.roles && r.after.keyRoles == t.keyRoles
      && r.after.resources == t.resources && r.after.rateLimits == t.rateLimits
    ensures Valid(t) ==> Valid(r.after)
  {
    var found := Q.GetPermissionIDByData(t, p.resourceID, p.typeRWMD, p.status);
    if found.Ok? then
      var id := found.value;
      var keepLink := (l: RolePermLink) => !(l.permID == id && l.roleID in roles);
      var t1 := t.(rolePerms := Seqs.Filter(t.rolePerms, keepLink));
      var t2 := if References(t1, id) < 1 then Q.DelPermissionByID(t1, id) else t1;
      RevokeKeepsValid(t, id, roles);
      Tx(Ok(()), t2)
    else Tx(Err(ErrNoRows), t)
  }

  /** Filtering links and dropping one node keep the store invariant. */
  lemma RevokeKeepsValid(t: Tables, id: int, roles: seq<string>)
    ensures var t1 := t.(rolePerms := Seqs.Filter(t.rolePerms, (l: RolePermLink) => !(l.permID == id && l.roleID in roles)));
      Valid(t) ==> Valid(t1) && Valid(Q.DelPermissionByID(t1, id))
  {
    var keepLink := (l: RolePermLink) => !(l.permID == id && l.roleID in roles);
    var keepNode := (q: PermRow) => q.id != id;
    if Valid(t) {
      Seqs.FilterKeepsPairwise(t.rolePerms, keepLink, (a: RolePermLink, b: RolePermLink) => a != b);
      Seqs.FilterKeepsPairwise(t.perms, keepNode, (a: PermRow, b: PermRow) => Triple(a) != Triple(b));
      Seqs.FilterKeepsPairwise(t.perms, keepNode, (a: PermRow, b: PermRow) => a.id < b.id);
    }
  }

  /** After a revoke, the node survives exactly when some role still links to
      it: no unreferenced node is left behind. */
  lemma RevokeCollectsNode(t: Tables, p: EntitiesRole.Permission, roles: seq<string>)
    requires Valid(t)
    requires Q.GetPermissionIDByData(t, p.resourceID, p.typeRWMD, p.status).Ok?
    ensures var id := Q.GetPermissionIDByData(t, p.resourceID, p.typeRWMD, p.status).value;
      HasNodeID(RevokePermission(t, p, roles).after, id) <==> References(RevokePermission(t, p, roles).after, id) > 0
  {
    var id := Q.GetPermissionIDByData(t, p.resourceID, p.typeRWMD, p.status).value;
    var after := RevokePermission(t, p, roles).after;
    var i :| 0 <= i < |t.perms| && Triple(t.perms[i]) == (p.resourceID, p.typeRWMD, p.status) && t.perms[i].id == id;
    if References(after, id) > 0 {
      assert t.perms[i] in after.perms;
    }
  }

  /** Granting twice reuses the node: the second grant for the same triple
      adds no node. */
  lemma GrantReusesNode(t: Tables, p: EntitiesRole.Permission, roles1: seq<string>, roles2: seq<string>)
    requires Valid(t)
    requires GrantPermission(t, p, roles1).result.Ok?
    ensures var t1 := GrantPermission(t, p, roles1).after;
      GrantPermission(t1, p, roles2).after.perms == t1.perms
  {
    var t1 := GrantPermission(t, p, roles1).after;
    var id :| (exists i :: 0 <= i < |t1.perms| && t1.perms[i] == PermRow(id, p.resourceID, p.typeRWMD, p.status));
    var i :| 0 <= i < |t1.perms| && t1.perms[i] == PermRow(id, p.resourceID, p.typeRWMD, p.status);
    assert Triple(t1.perms[i]) == (p.resourceID, p.typeRWMD, p.status);
    assert Q.GetPermissionIDByData(t1, p.resourceID, p.typeRWMD, p.status).Ok?;
    var (t2, id2) := ConstructPermNode(t1, p);
    assert t2 == t1;
    var granted := GrantPermNodes(t2, id2, roles2);
    assert granted.Ok? ==> granted.value.perms == t1.perms;
  }

  /** `RevokePermission` as written: the node id is scanned into a value
      rather than a pointer, which `database/sql` rejects, so every call that
      finds a node fails before deleting anything. The transaction is
      committed with no change either way. */
  function RevokePermissionAsWritten(t: Tables, p: EntitiesRole.Permission, roles: seq<string>): (r: Tx<()>)
    ensures r.after == t
    ensures r.result.Err?
    ensures r.result == Err(ErrNoRows) <==> !Q.GetPermissionIDByData(t, p.resourceID, p.typeRWMD, p.status).Ok?
  {
    var found := Q.GetPermissionIDByData(t, p.resourceID, p.typeRWMD, p.status);
    if found.Ok? then Tx(Err(ErrStore(SCAN_NOT_POINTER)), t) else Tx(Err(ErrNoRows), t)
  }

  /** A granted permission cannot be revoked as written, while the corrected
      revoke removes the link and collects the node. */
  lemma RevokeAsWrittenKeepsGrant()
    ensures var p := EntitiesRole.Permission("res", 0, true);
      var t := GrantPermission(Tables(map[], map[], [], map[], [], [], map[], 1), p, ["admin"]).after;
      RevokePermissionAsWritten(t, p, ["admin"]).after.rolePerms == [RolePermLink("admin", 1)]
      && RevokePermission(t, p, ["admin"]).after.rolePerms == []
      && RevokePermission(t, p, ["admin"]).after.perms == []
  {
    GrantIntoEmpty();
    RevokeOnlyLink();
  }

  /** The store after granting `res`/read/allow to `admin` in an empty store. */
  const GRANTED := Tables(map[], map[], [], map[], [PermRow(1, "res", 0, true)], [RolePermLink("admin", 1)], map[], 2)

  lemma GrantIntoEmpty()
    ensures GrantPermission(Tables(map[], map[], [], map[], [], [], map[], 1), EntitiesRole.Permission("res", 0, true), ["admin"]).after
      == GRANTED
  {
    var t0 := Tables(map[], map[], [], map[], [], [], map[], 1);
    var node := PermRow(1, "res", 0, true);
    assert Q.GetPermissionIDByData(t0, "res", 0, true) == Err(ErrNoRows);
    assert t0.perms + [node] == [node];
    var t1 := t0.(perms := [node], nextPermID := 2);
    assert ConstructPermNode(t0, EntitiesRole.Permission("res", 0, true)) == (t1, 1);
    assert Links(["admin"], 1) == [RolePermLink("admin", 1)];
    assert Grantable(t1.rolePerms, 1, ["admin"]);
    assert t1.rolePerms + Links(["admin"], 1) == [RolePermLink("admin", 1)];
  }

  lemma RevokeOnlyLink()
    ensures var p := EntitiesRole.Permission("res", 0, true);
      RevokePermissionAsWritten(GRANTED, p, ["admin"]).after.rolePerms == [RolePermLink("admin", 1)]
      && RevokePermission(GRANTED, p, ["admin"]).after.rolePerms == []
      && RevokePermission(GRANTED, p, ["admin"]).after.perms == []
  {
    var p := EntitiesRole.Permission("res", 0, true);
    assert Q.GetPermissionIDByData(GRANTED, "res", 0, true) == Ok(1);
    var after := RevokePermission(GRANTED, p, ["admin"]).after;
    assert RolePermLink("admin", 1) !in after.rolePerms;
    assert |after.rolePerms| == 0;
    assert !HasNodeID(after, 1);
  }
}
