/** Role storage (`dbimpl/sqlite/role.go`): named roles, and the links
    between keys and roles. */
module DbimplRole {
  import opened Errors
  import opened Schema
  import Q = ImplQueryManager
  import Seqs
  import EntitiesRole
  import DbimplKey

  /** `CreateRole`: insert a named role (type 0) with its precedence. */
  function CreateRole(t: Tables, role: EntitiesRole.Role): (r: Tx<()>)
    ensures r.result.Ok? <==> role.id !in t.roles
    ensures r.result.Ok? ==> r.after == t.(roles := t.roles[role.id := RoleRow(ROLE_TYPE_ROLE, role.precedence)])
    ensures !r.result.Ok? ==> r == Tx(Err(ErrConstraint("Roles")), t)
  {
    var inserted := Q.InsRoleData(t, role.id, RoleRow(ROLE_TYPE_ROLE, role.precedence));
    if inserted.Ok? then Tx(Ok(()), inserted.value) else Tx(Err(inserted.error), t)
  }

  /** `DeleteRole`: remove the role's RolePermIntersect rows, then the role,
      in one transaction. Nodes left without references and links from keys
      to the role are not removed. */
  function DeleteRole(t: Tables, name: string): (r: Tx<()>)
    ensures r.result.Ok?
    ensures r.after.roles == t.roles - {name}
    ensures forall l :: l in r.after.rolePerms <==> l in t.rolePerms && l.roleID != name
    ensures r.after.perms == t.perms && r.after.keys == t.keys && r.after.keyRoles == t.keyRoles
      && r.after.resources == t.resources && r.after.rateLimits == t.rateLimits && r.after.nextPermID == t.nextPermID
    ensures Valid(t) ==> Valid(r.after)
  {
    var t1 := Q.DelRPIEntryByRoleID(t, name);
    var t2 := Q.DelRoleByID(t1, name);
    DeleteRoleKeepsValid(t, name);
    Tx(Ok(()), t2)
  }

  lemma DeleteRoleKeepsValid(t: Tables, name: string)
    ensures Valid(t) ==> Valid(Q.DelRPIEntryByRoleID(t, name))
  {
    if Valid(t) {
      Seqs.FilterKeepsPairwise(t.rolePerms, (l: RolePermLink) => l.roleID != name, (a: RolePermLink, b: RolePermLink) => a != b);
    }
  }

  /** A deleted role no longer appears among any key's roles, even though the
      key's link to it is kept. */
  lemma DeletedRoleNotListed(t: Tables, name: string, keyID: string)
    requires keyID in t.keys
    ensures name !in DbimplKey.GetKeyData(DeleteRole(t, name).after, keyID).value.roles
  {
  }

  /** `GetRoles`: one page of named roles, in the order the table scan
      yields them (`order`, which lists every role once). Key self-roles are
      never listed. */
  function GetRoles(t: Tables, order: seq<string>, pageSize: int, offset: int): (r: Result<seq<string>>)
    requires Seqs.NoDuplicates(order) && forall id :: id in order <==> id in t.roles
    ensures r.Ok?
    ensures forall id :: id in r.value ==> id in t.roles && t.roles[id].roleType == ROLE_TYPE_ROLE
    ensures Seqs.NoDuplicates(r.value)
    ensures pageSize >= 0 ==> |r.value| <= pageSize
    ensures pageSize < 0 && offset <= 0 ==>
      forall id :: id in t.roles && t.roles[id].roleType == ROLE_TYPE_ROLE ==> id in r.value
  {
    var isNamed := (id: string) => id in t.roles && t.roles[id].roleType == ROLE_TYPE_ROLE;
    var named := Seqs.Filter(order, isNamed);
    Seqs.FilterKeepsPairwise(order, isNamed, (a: string, b: string) => a != b);
    Seqs.PageOf(named, pageSize, offset);
    Ok(Seqs.Page(named, pageSize, offset))
  }

  /** `GetRoles` as written: each row is scanned into a string value rather
      than a pointer, so the first row fails the scan and its error is
      returned; only a page without rows comes back without error. */
  function GetRolesAsWritten(t: Tables, order: seq<string>, pageSize: int, offset: int): (r: Result<seq<string>>)
    requires Seqs.NoDuplicates(order) && forall id :: id in order <==> id in t.roles
    ensures r.Ok? ==> r.value == []
    ensures r.Ok? <==> |GetRoles(t, order, pageSize, offset).value| == 0
    ensures !r.Ok? ==> r == Err(ErrStore(SCAN_NOT_POINTER))
  {
    if |GetRoles(t, order, pageSize, offset).value| == 0 then Ok([]) else Err(ErrStore(SCAN_NOT_POINTER))
  }

  /** A created role is listed by a full listing of the roles. */
  lemma CreateThenListed(t: Tables, role: EntitiesRole.Role, order: seq<string>)
    requires role.id !in t.roles
    requires Seqs.NoDuplicates(order) && forall id :: id in order <==> id in CreateRole(t, role).after.roles
    ensures role.id in GetRoles(CreateRole(t, role).after, order, -1, 0).value
  {
  }

  /** A created role makes a full listing fail as written, while the
      corrected listing holds it. */
  lemma ListingAsWrittenFails(t: Tables, role: EntitiesRole.Role, order: seq<string>)
    requires role.id !in t.roles
    requires Seqs.NoDuplicates(order) && forall id :: id in order <==> id in CreateRole(t, role).after.roles
    ensures GetRolesAsWritten(CreateRole(t, role).after, order, -1, 0) == Err(ErrStore(SCAN_NOT_POINTER))
    ensures role.id in GetRoles(CreateRole(t, role).after, order, -1, 0).value
  {
    CreateThenListed(t, role, order);
  }

  /** `GiveRole`: one multi-row INSERT of a `(keyid, role)` link per listed
      role. The statement text is built by dropping the last character of
      the value list, which panics for an empty list. */
  function GiveRole(t: Tables, keyID: string, roles: seq<string>): (r: Tx<()>)
    ensures |roles| == 0 ==> r.result.Panic? && r.after == t
    ensures r.result.Ok? <==> (|roles| > 0 && Seqs.NoDuplicates(roles)
      && forall i :: 0 <= i < |roles| ==> KeyRoleLink(keyID, roles[i]) !in t.keyRoles)
    ensures r.result.Ok? ==> r.after == t.(keyRoles := t.keyRoles + DbimplKey.KeyLinks(keyID, roles))
    ensures |roles| > 0 && !r.result.Ok? ==> r == Tx(Err(ErrConstraint("KeyRoleIntersect")), t)
    ensures Valid(t) ==> Valid(r.after)
  {
    if |roles| == 0 then Tx(Panic("slice bounds out of range [:-1]"), t)
    else if Seqs.NoDuplicates(roles) && forall i :: 0 <= i < |roles| ==> KeyRoleLink(keyID, roles[i]) !in t.keyRoles then
      KeyLinksKeepUnique(t.keyRoles, keyID, roles);
      Tx(Ok(()), t.(keyRoles := t.keyRoles + DbimplKey.KeyLinks(keyID, roles)))
    else Tx(Err(ErrConstraint("KeyRoleIntersect")), t)
  }

  /** `GiveRole` as written: the parameter slice is handed to the driver as
      one argument, which it refuses, so a non-empty call links nothing. */
  function GiveRoleAsWritten(t: Tables, keyID: string, roles: seq<string>): (r: Tx<()>)
    ensures r.after == t
    ensures r.result.Panic? <==> |roles| == 0
    ensures |roles| > 0 ==> r.result == Err(ErrStore(BAD_ARGUMENT))
  {
    if |roles| == 0 then Tx(Panic("slice bounds out of range [:-1]"), t)
    else Tx(Err(ErrStore(BAD_ARGUMENT)), t)
  }

  /** A role not yet linked to a key is linked by the corrected `GiveRole`
      and stays unlinked as written. */
  lemma GiveAsWrittenLinksNothing(t: Tables, keyID: string, role: string)
    requires KeyRoleLink(keyID, role) !in t.keyRoles
    ensures GiveRoleAsWritten(t, keyID, [role]).result == Err(ErrStore(BAD_ARGUMENT))
    ensures KeyRoleLink(keyID, role) !in GiveRoleAsWritten(t, keyID, [role]).after.keyRoles
    ensures GiveRole(t, keyID, [role]).result.Ok?
    ensures KeyRoleLink(keyID, role) in GiveRole(t, keyID, [role]).after.keyRoles
  {
    assert DbimplKey.KeyLinks(keyID, [role])[0] == KeyRoleLink(keyID, role);
  }

  lemma KeyLinksKeepUnique(ls: seq<KeyRoleLink>, keyID: string, roles: seq<string>)
    requires Seqs.NoDuplicates(roles) && forall i :: 0 <= i < |roles| ==> KeyRoleLink(keyID, roles[i]) !in ls
    ensures Seqs.NoDuplicates(ls) ==> Seqs.NoDuplicates(ls + DbimplKey.KeyLinks(keyID, roles))
  {
    var all := ls + DbimplKey.KeyLinks(keyID, roles);
    if Seqs.NoDuplicates(ls) {
      forall i, j | 0 <= i < j < |all| ensures all[i] != all[j] {
        if j >= |ls| && i < |ls| {
          assert all[j] == KeyRoleLink(keyID, roles[j - |ls|]);
        }
      }
    }
  }

  /** `TakeRole`: delete the key's links to the listed roles. An empty list
      panics while building the statement text. */
  function TakeRole(t: Tables, keyID: string, roles: seq<string>): (r: Tx<()>)
    ensures |roles| == 0 <==> r.result.Panic?
    ensures |roles| == 0 ==> r.after == t
    ensures |roles| > 0 ==> r.result.Ok?
    ensures |roles| > 0 ==> forall l :: l in r.after.keyRoles <==>
      l in t.keyRoles && !(l.keyID == keyID && l.roleID in roles)
    ensures r.after.keys == t.keys && r.after.roles == t.roles && r.after.perms == t.perms
      && r.after.rolePerms == t.rolePerms && r.after.resources == t.resources && r.after.rateLimits == t.rateLimits
    ensures Valid(t) ==> Valid(r.after)
  {
    if |roles| == 0 then Tx(Panic("slice bounds out of range [:-1]"), t)
    else
      var keep := (l: KeyRoleLink) => !(l.keyID == keyID && l.roleID in roles);
      FilterLinksKeepsValid(t, keep);
      Tx(Ok(()), t.(keyRoles := Seqs.Filter(t.keyRoles, keep)))
  }

  /** `TakeRole` as written: the role slice is handed to the driver as one
      argument after the key id, which it refuses, so a non-empty call
      removes nothing. */
  function TakeRoleAsWritten(t: Tables, keyID: string, roles: seq<string>): (r: Tx<()>)
    ensures r.after == t
    ensures r.result.Panic? <==> |roles| == 0
    ensures |roles| > 0 ==> r.result == Err(ErrStore(BAD_ARGUMENT))
  {
    if |roles| == 0 then Tx(Panic("slice bounds out of range [:-1]"), t)
    else Tx(Err(ErrStore(BAD_ARGUMENT)), t)
  }

  /** A key's link to a role survives taking that role as written, and is
      gone after the corrected `TakeRole`. */
  lemma TakeAsWrittenKeepsLink(t: Tables, keyID: string, role: string)
    requires KeyRoleLink(keyID, role) in t.keyRoles
    ensures KeyRoleLink(keyID, role) in TakeRoleAsWritten(t, keyID, [role]).after.keyRoles
    ensures KeyRoleLink(keyID, role) !in TakeRole(t, keyID, [role]).after.keyRoles
  {
  }

  lemma FilterLinksKeepsValid(t: Tables, keep: KeyRoleLink -> bool)
    ensures Valid(t) ==> Valid(t.(keyRoles := Seqs.Filter(t.keyRoles, keep)))
  {
    if Valid(t) {
      Seqs.FilterKeepsPairwise(t.keyRoles, keep, (a: KeyRoleLink, b: KeyRoleLink) => a != b);
    }
  }

  /** Taking back the roles just given restores the key's links exactly. */
  lemma {:induction false} TakeUndoesGive(t: Tables, keyID: string, roles: seq<string>)
    requires GiveRole(t, keyID, roles).result.Ok?
    ensures TakeRole(GiveRole(t, keyID, roles).after, keyID, roles).after == t
  {
    var keep := (l: KeyRoleLink) => !(l.keyID == keyID && l.roleID in roles);
    var links := DbimplKey.KeyLinks(keyID, roles);
    Seqs.FilterConcat(t.keyRoles, links, keep);
    assert forall i :: 0 <= i < |t.keyRoles| ==> keep(t.keyRoles[i]);
    Seqs.FilterAll(t.keyRoles, keep);
    Seqs.FilterNone(links, keep);
  }
}
