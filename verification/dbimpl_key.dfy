/** Key storage (`dbimpl/sqlite/key.go`). A key row keeps its times in Unix
    milliseconds, and every key owns a self-role named after it. */
module DbimplKey {
  import opened Errors
  import opened Schema
  import Q = ImplQueryManager
  import Seqs
  import SerdeTime
  import EntitiesKey

  /** Precedence given to a key's self-role. */
  const KEY_ROLE_PRECEDENCE: int := 10000

  /** The KeyRoleIntersect rows linking key `keyID` to each of `roles`. */
  function KeyLinks(keyID: string, roles: seq<string>): (ls: seq<KeyRoleLink>)
    ensures |ls| == |roles|
    ensures forall i :: 0 <= i < |ls| ==> ls[i] == KeyRoleLink(keyID, roles[i])
  {
    if |roles| == 0 then [] else [KeyRoleLink(keyID, roles[0])] + KeyLinks(keyID, roles[1..])
  }

  /** Every role exists, is listed once and is not linked to the key yet:
      exactly the inputs for which the role loop of CreateKey succeeds. */
  predicate Linkable(t: Tables, keyID: string, roles: seq<string>) {
    Seqs.NoDuplicates(roles)
    && forall i :: 0 <= i < |roles| ==> roles[i] in t.roles && KeyRoleLink(keyID, roles[i]) !in t.keyRoles
  }

  lemma LinkableStep(t: Tables, keyID: string, roles: seq<string>)
    requires |roles| > 0
    ensures Linkable(t, keyID, roles) <==>
      roles[0] in t.roles && KeyRoleLink(keyID, roles[0]) !in t.keyRoles
      && Linkable(t.(keyRoles := t.keyRoles + [KeyRoleLink(keyID, roles[0])]), keyID, roles[1..])
  {
    var l0 := KeyRoleLink(keyID, roles[0]);
    var t1 := t.(keyRoles := t.keyRoles + [l0]);
    if roles[0] in t.roles && l0 !in t.keyRoles && Linkable(t1, keyID, roles[1..]) {
      forall i, j | 0 <= i < j < |roles| ensures roles[i] != roles[j] {
        if i == 0 {
          assert KeyRoleLink(keyID, roles[1..][j - 1]) !in t1.keyRoles;
        } else {
          assert roles[1..][i - 1] != roles[1..][j - 1];
        }
      }
      forall i | 0 <= i < |roles| ensures roles[i] in t.roles && KeyRoleLink(keyID, roles[i]) !in t.keyRoles {
        if i > 0 {
          assert KeyRoleLink(keyID, roles[1..][i - 1]) !in t1.keyRoles;
        }
      }
    }
    if Linkable(t, keyID, roles) {
      forall i | 0 <= i < |roles[1..]| ensures KeyRoleLink(keyID, roles[1..][i]) !in t1.keyRoles {
        assert roles[i + 1] != roles[0];
      }
      forall i, j | 0 <= i < j < |roles[1..]| ensures roles[1..][i] != roles[1..][j] {
        assert roles[i + 1] != roles[j + 1];
      }
    }
  }

  /** The role loop of `CreateKey`: look each role up, then link it to the
      key; the first missing role or duplicate link stops the loop. */
  function AddKeyRoles(t: Tables, keyID: string, roles: seq<string>): (r: Result<Tables>)
    ensures r.Ok? <==> Linkable(t, keyID, roles)
    ensures r.Ok? ==> r.value == t.(keyRoles := t.keyRoles + KeyLinks(keyID, roles))
    ensures !r.Ok? ==> r == Err(ErrNoRows) || r == Err(ErrConstraint("KeyRoleIntersect"))
    decreases |roles|
  {
    if |roles| == 0 then Ok(t)
    else
      var found := Q.GetRoleIDIfExists(t, roles[0]);
      if !found.Ok? then found.PropagateFailure()
      else
        var first := Q.InsKeyRoleIntersectData(t, keyID, found.value);
        if !first.Ok? then first
        else
          var rest := AddKeyRoles(first.value, keyID, roles[1..]);
          LinkableStep(t, keyID, roles);
          KeyLinksCons(t.keyRoles, keyID, roles);
          rest
  }

  /** Linking the first role, then the others, links all of them in order. */
  lemma KeyLinksCons(ls: seq<KeyRoleLink>, keyID: string, roles: seq<string>)
    requires |roles| > 0
    ensures (ls + [KeyRoleLink(keyID, roles[0])]) + KeyLinks(keyID, roles[1..]) == ls + KeyLinks(keyID, roles)
  {
    assert KeyLinks(keyID, roles) == [KeyRoleLink(keyID, roles[0])] + KeyLinks(keyID, roles[1..]);
  }

  /** The Keys row CreateKey writes for `k`: times truncated to milliseconds. */
  function KeyRowOf(k: EntitiesKey.Key): KeyRow {
    KeyRow(k.comment, Some(k.rateLimit), SerdeTime.UnixMilli(k.expiresAt), SerdeTime.UnixMilli(k.createdAt))
  }

  /** Exactly the stores in which `CreateKey(k)` commits. */
  predicate CanCreate(t: Tables, k: EntitiesKey.Key) {
    k.id != "" && k.id !in t.keys && Linkable(t, k.id, k.roles)
    && k.id !in t.roles && KeyRoleLink(k.id, k.id) !in t.keyRoles
  }

  /** `CreateKey`: insert the key row, link its roles, then create and link
      its self-role, all in one transaction. An empty id is refused before
      the transaction starts. */
  function CreateKey(t: Tables, k: EntitiesKey.Key): (r: Tx<()>)
    ensures k.id == "" ==> r == Tx(Err(ErrRequiredField("keyid")), t)
    ensures r.result.Ok? <==> CanCreate(t, k)
    ensures !r.result.Ok? ==> r.result.Err? && r.after == t
    ensures r.result.Ok? ==>
      r.after.keys == t.keys[k.id := KeyRowOf(k)]
      && r.after.roles == t.roles[k.id := RoleRow(ROLE_TYPE_KEY, KEY_ROLE_PRECEDENCE)]
      && r.after.keyRoles == t.keyRoles + KeyLinks(k.id, k.roles) + [KeyRoleLink(k.id, k.id)]
    ensures r.after.perms == t.perms && r.after.rolePerms == t.rolePerms && r.after.resources == t.resources
      && r.after.rateLimits == t.rateLimits && r.after.nextPermID == t.nextPermID
    ensures Valid(t) ==> Valid(r.after)
  {
    if k.id == "" then Tx(Err(ErrRequiredField("keyid")), t)
    else
      var t1 := Q.InsKeyData(t, k.id, KeyRowOf(k));
      if !t1.Ok? then Tx(Err(t1.error), t)
      else
        var t2 := AddKeyRoles(t1.value, k.id, k.roles);
        if !t2.Ok? then Tx(Err(t2.error), t)
        else
          var t3 := Q.InsRoleData(t2.value, k.id, RoleRow(ROLE_TYPE_KEY, KEY_ROLE_PRECEDENCE));
          if !t3.Ok? then Tx(Err(t3.error), t)
          else
            var t4 := Q.InsKeyRoleIntersectData(t3.value, k.id, k.id);
            if !t4.Ok? then Tx(Err(t4.error), t)
            else
              CreateKeyKeepsValid(t, k);
              Tx(Ok(()), t4.value)
  }

  lemma CreateKeyKeepsValid(t: Tables, k: EntitiesKey.Key)
    ensures Valid(t) && CanCreate(t, k) ==>
      Seqs.NoDuplicates(t.keyRoles + KeyLinks(k.id, k.roles) + [KeyRoleLink(k.id, k.id)])
  {
    if Valid(t) && CanCreate(t, k) {
      var all := t.keyRoles + KeyLinks(k.id, k.roles) + [KeyRoleLink(k.id, k.id)];
      var n := |t.keyRoles|;
      forall i, j | 0 <= i < j < |all| ensures all[i] != all[j] {
        if j == |all| - 1 && n <= i {
          assert k.roles[i - n] in t.roles;
        } else if n <= i {
          assert all[j] == KeyRoleLink(k.id, k.roles[j - n]);
        } else if n <= j < |all| - 1 {
          assert all[j] == KeyRoleLink(k.id, k.roles[j - n]);
        }
      }
    }
  }

  /** `DeleteKey` is not implemented and panics. */
  function DeleteKey(t: Tables, id: string): (r: Tx<()>)
    ensures r.result.Panic? && r.after == t
  {
    Tx(Panic("implement me"), t)
  }

  // ---- reading a key back ----

  /** A key's roles as `GetRolesByKeyIDOrdered` joins them: each linked role
      that still exists, with its precedence, in link order. */
  function JoinedRoles(t: Tables, links: seq<KeyRoleLink>, keyID: string): (rs: seq<(string, int)>)
    ensures forall i :: 0 <= i < |rs| ==>
      (rs[i].0 in t.roles && rs[i].1 == t.roles[rs[i].0].precedence && KeyRoleLink(keyID, rs[i].0) in links)
    ensures forall l :: l in links && l.keyID == keyID && l.roleID in t.roles ==>
      (l.roleID, t.roles[l.roleID].precedence) in rs
  {
    if |links| == 0 then []
    else
      var rest := JoinedRoles(t, links[1..], keyID);
      var l := links[0];
      if l.keyID == keyID && l.roleID in t.roles then [(l.roleID, t.roles[l.roleID].precedence)] + rest
      else rest
  }

  predicate SortedByPrecedence(rs: seq<(string, int)>) {
    forall i, j :: 0 <= i < j < |rs| ==> rs[i].1 <= rs[j].1
  }

  /** Insert `x` after every entry of no greater precedence. */
  function InsertByPrecedence(x: (string, int), rs: seq<(string, int)>): (out: seq<(string, int)>)
    requires SortedByPrecedence(rs)
    ensures SortedByPrecedence(out)
    ensures multiset(out) == multiset(rs) + multiset{x}
  {
    if |rs| == 0 then [x]
    else if x.1 < rs[0].1 then
      assert rs == [rs[0]] + rs[1..];
      [x] + rs
    else
      var tail := InsertByPrecedence(x, rs[1..]);
      HeadBelowTail(x, rs, tail);
      var out := [rs[0]] + tail;
      assert out[1..] == tail;
      out
  }

  /** The head of a sorted list is no greater than anything the insertion
      into its rest produces, when `x` itself is no smaller than the head. */
  lemma HeadBelowTail(x: (string, int), rs: seq<(string, int)>, tail: seq<(string, int)>)
    requires SortedByPrecedence(rs) && |rs| > 0 && rs[0].1 <= x.1
    requires multiset(tail) == multiset(rs[1..]) + multiset{x}
    ensures forall k :: 0 <= k < |tail| ==> rs[0].1 <= tail[k].1
    ensures multiset(rs) + multiset{x} == multiset([rs[0]] + tail)
  {
    assert rs == [rs[0]] + rs[1..];
    forall k | 0 <= k < |tail| ensures rs[0].1 <= tail[k].1 {
      assert tail[k] in multiset(tail);
      if tail[k] != x {
        assert tail[k] in multiset(rs[1..]);
        var j :| 0 <= j < |rs[1..]| && rs[1..][j] == tail[k];
        assert rs[j + 1] == tail[k];
      }
    }
  }

  /** `ORDER BY rolePrecedence`, with ties kept in link order. */
  function SortByPrecedence(rs: seq<(string, int)>): (out: seq<(string, int)>)
    ensures SortedByPrecedence(out)
    ensures multiset(out) == multiset(rs)
  {
    if |rs| == 0 then []
    else
      assert rs == [rs[0]] + rs[1..];
      InsertByPrecedence(rs[0], SortByPrecedence(rs[1..]))
  }

  function Names(rs: seq<(string, int)>): (ns: seq<string>)
    ensures |ns| == |rs| && forall i :: 0 <= i < |rs| ==> ns[i] == rs[i].0
  {
    if |rs| == 0 then [] else [rs[0].0] + Names(rs[1..])
  }

  /** `GetKeyData` as written: the key's row and its roles by ascending
      precedence; times come back as whole milliseconds. The tier read from
      the row is dropped, so the key's rate limit is always empty. */
  function GetKeyDataAsWritten(t: Tables, keyID: string): (r: Result<EntitiesKey.Key>)
    ensures r.Ok? <==> keyID in t.keys
    ensures !r.Ok? ==> r == Err(ErrNoRows)
    ensures r.Ok? ==> r.value.rateLimit == ""
  {
    if keyID !in t.keys then Err(ErrNoRows)
    else
      var row := t.keys[keyID];
      Ok(EntitiesKey.Key(keyID, row.note, "", OrderedRoles(t, keyID),
        row.expiresMs * SerdeTime.NS_PER_MS, row.createdMs * SerdeTime.NS_PER_MS))
  }

  /** The tier a key row names, "" for NULL. */
  function TierOf(row: KeyRow): string {
    if row.rateLimitID.Some? then row.rateLimitID.value else ""
  }

  /** The names of a key's joined roles in ascending precedence: every one
      is an existing role linked to the key, and every such role appears. */
  function OrderedRoles(t: Tables, keyID: string): (ns: seq<string>)
    ensures forall i :: 0 <= i < |ns| ==> ns[i] in t.roles && KeyRoleLink(keyID, ns[i]) in t.keyRoles
    ensures forall l :: l in t.keyRoles && l.keyID == keyID && l.roleID in t.roles ==> l.roleID in ns
    ensures forall i, j :: 0 <= i < j < |ns| ==> t.roles[ns[i]].precedence <= t.roles[ns[j]].precedence
  {
    var joined := JoinedRoles(t, t.keyRoles, keyID);
    var sorted := SortByPrecedence(joined);
    OrderedNames(t, keyID, joined, sorted);
    Names(sorted)
  }

  /** The names of the sorted join rows are the key's linked roles, by
      ascending precedence. */
  lemma OrderedNames(t: Tables, keyID: string, joined: seq<(string, int)>, sorted: seq<(string, int)>)
    requires forall i :: 0 <= i < |joined| ==>
      (joined[i].0 in t.roles && joined[i].1 == t.roles[joined[i].0].precedence && KeyRoleLink(keyID, joined[i].0) in t.keyRoles)
    requires forall l :: l in t.keyRoles && l.keyID == keyID && l.roleID in t.roles ==>
      (l.roleID, t.roles[l.roleID].precedence) in joined
    requires SortedByPrecedence(sorted) && multiset(sorted) == multiset(joined)
    ensures var ns := Names(sorted);
      (forall i :: 0 <= i < |ns| ==> ns[i] in t.roles && KeyRoleLink(keyID, ns[i]) in t.keyRoles)
      && (forall l :: l in t.keyRoles && l.keyID == keyID && l.roleID in t.roles ==> l.roleID in ns)
      && (forall i, j :: 0 <= i < j < |ns| ==> t.roles[ns[i]].precedence <= t.roles[ns[j]].precedence)
  {
    SortedNamesCover(joined, sorted);
    var ns := Names(sorted);
    forall i | 0 <= i < |ns| ensures ns[i] in t.roles && sorted[i].1 == t.roles[ns[i]].precedence {
      var k :| 0 <= k < |joined| && joined[k] == sorted[i];
    }
  }

  lemma SortedNamesCover(joined: seq<(string, int)>, sorted: seq<(string, int)>)
    requires multiset(sorted) == multiset(joined)
    ensures forall i :: 0 <= i < |sorted| ==> sorted[i] in joined
    ensures forall x :: x in joined ==> x.0 in Names(sorted)
  {
    forall i | 0 <= i < |sorted| ensures sorted[i] in joined {
      assert sorted[i] in multiset(joined);
    }
    forall x | x in joined ensures x.0 in Names(sorted) {
      assert x in multiset(sorted);
      var i :| 0 <= i < |sorted| && sorted[i] == x;
      assert Names(sorted)[i] == x.0;
    }
  }

  /** `GetKeyData` with the scanned tier copied into the key. */
  function GetKeyData(t: Tables, keyID: string): (r: Result<EntitiesKey.Key>)
    ensures r.Ok? <==> keyID in t.keys
    ensures !r.Ok? ==> r == Err(ErrNoRows)
    ensures r.Ok? ==> var row := t.keys[keyID];
      r.value.id == keyID && r.value.comment == row.note && r.value.rateLimit == TierOf(row)
      && SerdeTime.UnixMilli(r.value.expiresAt) == row.expiresMs
      && SerdeTime.UnixMilli(r.value.createdAt) == row.createdMs
      && r.value.roles == OrderedRoles(t, keyID)
  {
    if keyID !in t.keys then Err(ErrNoRows)
    else
      var row := t.keys[keyID];
      Ok(EntitiesKey.Key(keyID, row.note, TierOf(row), OrderedRoles(t, keyID),
        row.expiresMs * SerdeTime.NS_PER_MS, row.createdMs * SerdeTime.NS_PER_MS))
  }

  /** The tier a key is created with is lost on the way back as written. */
  lemma GetKeyDataDropsTier(t: Tables, k: EntitiesKey.Key)
    requires CanCreate(t, k) && k.rateLimit != ""
    ensures GetKeyDataAsWritten(CreateKey(t, k).after, k.id).value.rateLimit != k.rateLimit
    ensures GetKeyData(CreateKey(t, k).after, k.id).value.rateLimit == k.rateLimit
  {
  }

  /** A created key reads back with its id, comment and tier, its expiry and
      creation times in the same millisecond, and its self-role and every
      role it was given among its roles. */
  lemma CreateThenGet(t: Tables, k: EntitiesKey.Key)
    requires CanCreate(t, k)
    ensures GetKeyData(CreateKey(t, k).after, k.id).Ok?
    ensures var g := GetKeyData(CreateKey(t, k).after, k.id).value;
      g.id == k.id && g.comment == k.comment && g.rateLimit == k.rateLimit
      && SerdeTime.UnixMilli(g.expiresAt) == SerdeTime.UnixMilli(k.expiresAt)
      && SerdeTime.UnixMilli(g.createdAt) == SerdeTime.UnixMilli(k.createdAt)
      && k.id in g.roles
      && forall i :: 0 <= i < |k.roles| ==> k.roles[i] in g.roles
  {
    var after := CreateKey(t, k).after;
    assert KeyRoleLink(k.id, k.id) in after.keyRoles;
    forall i | 0 <= i < |k.roles| ensures KeyRoleLink(k.id, k.roles[i]) in after.keyRoles {
      assert after.keyRoles[|t.keyRoles| + i] == KeyRoleLink(k.id, k.roles[i]);
    }
  }

  // ---- listing ----

  /** `GetKeyIDs`: one page of key ids in the order the table scan yields
      them (`order`, which lists every key once). */
  function GetKeyIDs(t: Tables, order: seq<string>, pageSize: int, offset: int): (r: Result<seq<string>>)
    requires Seqs.NoDuplicates(order) && forall id :: id in order <==> id in t.keys
    ensures r.Ok?
    ensures forall id :: id in r.value ==> id in t.keys
    ensures Seqs.NoDuplicates(r.value)
    ensures pageSize >= 0 ==> |r.value| <= pageSize
    ensures offset <= 0 && pageSize < 0 ==> |r.value| == |t.keys|
  {
    Seqs.PageOf(order, pageSize, offset);
    Seqs.DistinctCount(order, t.keys.Keys);
    Ok(Seqs.Page(order, pageSize, offset))
  }

  /** `GetKeys` as written: the id list is read, then each key is stored
      into a nil slice by index, which panics as soon as there is one. */
  function GetKeysAsWritten(t: Tables, order: seq<string>, pageSize: int, offset: int): (r: Result<seq<EntitiesKey.Key>>)
    requires Seqs.NoDuplicates(order) && forall id :: id in order <==> id in t.keys
    ensures r.Ok? <==> |GetKeyIDs(t, order, pageSize, offset).value| == 0
    ensures r.Ok? ==> r.value == []
  {
    var ids := GetKeyIDs(t, order, pageSize, offset).value;
    if |ids| == 0 then Ok([]) else Panic("index out of range [0] with length 0")
  }

  /** Each id's key, stopping before the first id that cannot be read. */
  function KeysOf(t: Tables, ids: seq<string>): (ks: seq<EntitiesKey.Key>)
    ensures |ks| <= |ids|
    ensures forall i :: 0 <= i < |ks| ==> ids[i] in t.keys && ks[i] == GetKeyData(t, ids[i]).value
    ensures |ks| < |ids| ==> ids[|ks|] !in t.keys
  {
    if |ids| == 0 then []
    else if ids[0] !in t.keys then []
    else
      var rest := KeysOf(t, ids[1..]);
      var k := GetKeyData(t, ids[0]).value;
      KeysCons(t, ids, k, rest);
      [k] + rest
  }
  lemma KeysCons(t: Tables, ids: seq<string>, k: EntitiesKey.Key, rest: seq<EntitiesKey.Key>)
    requires |ids| > 0 && ids[0] in t.keys && k == GetKeyData(t, ids[0]).value
    requires |rest| <= |ids| - 1
    requires forall i :: 0 <= i < |rest| ==> ids[1..][i] in t.keys && rest[i] == GetKeyData(t, ids[1..][i]).value
    requires |rest| < |ids| - 1 ==> ids[1..][|rest|] !in t.keys
    ensures var ks := [k] + rest;
      (forall i :: 0 <= i < |ks| ==> ids[i] in t.keys && ks[i] == GetKeyData(t, ids[i]).value)
      && (|ks| < |ids| ==> ids[|ks|] !in t.keys)
  {
    var ks := [k] + rest;
    forall i | 1 <= i < |ks| ensures ids[i] in t.keys && ks[i] == GetKeyData(t, ids[i]).value {
      assert ks[i] == rest[i - 1] && ids[i] == ids[1..][i - 1];
    }
  }


  /** `GetKeys` with the keys appended: one key per listed id, in page order.
      A key that cannot be read ends the list without an error, as the
      source's loop does. */
  function GetKeys(t: Tables, order: seq<string>, pageSize: int, offset: int): (r: Result<seq<EntitiesKey.Key>>)
    requires Seqs.NoDuplicates(order) && forall id :: id in order <==> id in t.keys
    ensures r.Ok?
    ensures var ids := GetKeyIDs(t, order, pageSize, offset).value;
      |r.value| == |ids| && forall i :: 0 <= i < |ids| ==> r.value[i].id == ids[i]
  {
    var ids := GetKeyIDs(t, order, pageSize, offset).value;
    var ks := KeysOf(t, ids);
    Ok(ks)
  }

  /** `GetKeyRateLimitID`: the key's tier, "" when it has none; a missing
      key yields its own id together with ErrKeyMissing. */
  function GetKeyRateLimitID(t: Tables, keyID: string): (r: (string, Option<Error>))
    ensures r.1.None? <==> keyID in t.keys
    ensures keyID in t.keys ==> r.0 == TierOf(t.keys[keyID])
    ensures keyID !in t.keys ==> r == (keyID, Some(ErrKeyMissing))
  {
    var tier := Q.GetKeyRateLimitID(t, keyID);
    if !tier.Ok? then
      // the existence probe fails only with ErrNoRows; when it finds the
      // key, the code returns "" with the probe's nil error
      if Q.GetKeyIDIfExists(t, keyID) == Err(ErrNoRows) then (keyID, Some(ErrKeyMissing)) else ("", None)
    else if tier.value.Some? then (tier.value.value, None)
    else ("", None)
  }
}
