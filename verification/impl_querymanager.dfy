/** The statement table of the store (`QueryManager`): what each prepared
    statement does to the tables, and `prepVarLenQuery`, which prepares the
    1..n-fold repetitions of a statement section. */
module ImplQueryManager {
  import opened Errors
  import opened Schema
  import OperationType
  import Seqs

  // ---- INSERT statements: a duplicate primary key is a constraint error ----

  /** `InsKeyData`: INSERT INTO Keys (keyid, note, ratelimitid, expires, created). */
  function InsKeyData(t: Tables, keyID: string, row: KeyRow): (r: Result<Tables>)
    ensures r.Ok? <==> keyID !in t.keys
    ensures r.Ok? ==> r.value == t.(keys := t.keys[keyID := row])
    ensures !r.Ok? ==> r == Err(ErrConstraint("Keys"))
  {
    if keyID in t.keys then Err(ErrConstraint("Keys")) else Ok(t.(keys := t.keys[keyID := row]))
  }

  /** `InsRoleData`: INSERT INTO Roles (roleid, roleTypeRK, rolePrecedence). */
  function InsRoleData(t: Tables, roleID: string, row: RoleRow): (r: Result<Tables>)
    ensures r.Ok? <==> roleID !in t.roles
    ensures r.Ok? ==> r.value == t.(roles := t.roles[roleID := row])
    ensures !r.Ok? ==> r == Err(ErrConstraint("Roles"))
  {
    if roleID in t.roles then Err(ErrConstraint("Roles")) else Ok(t.(roles := t.roles[roleID := row]))
  }

  /** `InsKeyRoleIntersectData`: INSERT INTO KeyRoleIntersect (keyid, roleid). */
  function InsKeyRoleIntersectData(t: Tables, keyID: string, roleID: string): (r: Result<Tables>)
    ensures r.Ok? <==> KeyRoleLink(keyID, roleID) !in t.keyRoles
    ensures r.Ok? ==> r.value == t.(keyRoles := t.keyRoles + [KeyRoleLink(keyID, roleID)])
    ensures !r.Ok? ==> r == Err(ErrConstraint("KeyRoleIntersect"))
  {
    var l := KeyRoleLink(keyID, roleID);
    if l in t.keyRoles then Err(ErrConstraint("KeyRoleIntersect")) else Ok(t.(keyRoles := t.keyRoles + [l]))
  }

  /** `InsResourceData`: INSERT INTO Resources (resourceid, flags). */
  function InsResourceData(t: Tables, id: string, flags: bv8): (r: Result<Tables>)
    ensures r.Ok? <==> id !in t.resources
    ensures r.Ok? ==> r.value == t.(resources := t.resources[id := flags])
    ensures !r.Ok? ==> r == Err(ErrConstraint("Resources"))
  {
    if id in t.resources then Err(ErrConstraint("Resources")) else Ok(t.(resources := t.resources[id := flags]))
  }

  /** `InsPermissionData` followed by `LastInsertId`: appends a node with the
      next rowid and returns that id. */
  function InsPermissionData(t: Tables, resourceID: string, op: OperationType.OpType, allow: bool): (Tables, int)
  {
    (t.(perms := t.perms + [PermRow(t.nextPermID, resourceID, op, allow)], nextPermID := t.nextPermID + 1), t.nextPermID)
  }

  /** `InsRolePermIntersectData`: INSERT INTO RolePermIntersect (roleid, permissionid). */
  function InsRolePermIntersectData(t: Tables, roleID: string, permID: int): (r: Result<Tables>)
    ensures r.Ok? <==> RolePermLink(roleID, permID) !in t.rolePerms
    ensures r.Ok? ==> r.value == t.(rolePerms := t.rolePerms + [RolePermLink(roleID, permID)])
    ensures !r.Ok? ==> r == Err(ErrConstraint("RolePermIntersect"))
  {
    var l := RolePermLink(roleID, permID);
    if l in t.rolePerms then Err(ErrConstraint("RolePermIntersect")) else Ok(t.(rolePerms := t.rolePerms + [l]))
  }

  /** `InsRateLimitData`: INSERT INTO Ratelimits (ratelimitid, requests, burst, reset). */
  function InsRateLimitData(t: Tables, id: string, row: RateLimitRow): (r: Result<Tables>)
    ensures r.Ok? <==> id !in t.rateLimits
    ensures r.Ok? ==> r.value == t.(rateLimits := t.rateLimits[id := row])
    ensures !r.Ok? ==> r == Err(ErrConstraint("Ratelimits"))
  {
    if id in t.rateLimits then Err(ErrConstraint("Ratelimits")) else Ok(t.(rateLimits := t.rateLimits[id := row]))
  }

  // ---- single-row SELECT statements: no row is sql.ErrNoRows ----

  /** `GetRoleIDIfExists`. */
  function GetRoleIDIfExists(t: Tables, roleID: string): Result<string>
  {
    if roleID in t.roles then Ok(roleID) else Err(ErrNoRows)
  }

  /** `GetKeyIDIfExists`. */
  function GetKeyIDIfExists(t: Tables, keyID: string): Result<string>
  {
    if keyID in t.keys then Ok(keyID) else Err(ErrNoRows)
  }

  /** The rowid-order position of the first node with the given triple, or
      `|perms|` when there is none. */
  function FindNode(perms: seq<PermRow>, resourceID: string, op: OperationType.OpType, allow: bool): (i: nat)
    ensures i <= |perms|
    ensures i < |perms| ==> Triple(perms[i]) == (resourceID, op, allow)
    ensures forall j :: 0 <= j < i ==> Triple(perms[j]) != (resourceID, op, allow)
    decreases |perms|
  {
    if |perms| == 0 || Triple(perms[0]) == (resourceID, op, allow) then 0
    else 1 + FindNode(perms[1..], resourceID, op, allow)
  }

  /** `GetPermissionIDByData`: the id of the node with this triple. */
  function GetPermissionIDByData(t: Tables, resourceID: string, op: OperationType.OpType, allow: bool): (r: Result<int>)
    ensures r.Ok? <==> exists i :: 0 <= i < |t.perms| && Triple(t.perms[i]) == (resourceID, op, allow)
    ensures r.Ok? ==> exists i :: 0 <= i < |t.perms| && Triple(t.perms[i]) == (resourceID, op, allow) && t.perms[i].id == r.value
    ensures !r.Ok? ==> r == Err(ErrNoRows)
  {
    var i := FindNode(t.perms, resourceID, op, allow);
    if i < |t.perms| then Ok(t.perms[i].id) else Err(ErrNoRows)
  }

  /** `GetKeyRateLimitID`: the key's tier column, NULL as `None`. */
  function GetKeyRateLimitID(t: Tables, keyID: string): (r: Result<Option<string>>)
    ensures r.Ok? <==> keyID in t.keys
    ensures r.Ok? ==> r.value == t.keys[keyID].rateLimitID
    ensures !r.Ok? ==> r == Err(ErrNoRows)
  {
    if keyID in t.keys then Ok(t.keys[keyID].rateLimitID) else Err(ErrNoRows)
  }

  /** `GetRateLimitDataByID`: (requests, burst, reset) of a tier. */
  function GetRateLimitDataByID(t: Tables, id: string): (r: Result<RateLimitRow>)
    ensures r.Ok? <==> id in t.rateLimits
    ensures r.Ok? ==> r.value == t.rateLimits[id]
    ensures !r.Ok? ==> r == Err(ErrNoRows)
  {
    if id in t.rateLimits then Ok(t.rateLimits[id]) else Err(ErrNoRows)
  }

  /** `GetResourceFlagsByID`. */
  function GetResourceFlagsByID(t: Tables, id: string): (r: Result<bv8>)
    ensures r.Ok? <==> id in t.resources
    ensures r.Ok? ==> r.value == t.resources[id]
    ensures !r.Ok? ==> r == Err(ErrNoRows)
  {
    if id in t.resources then Ok(t.resources[id]) else Err(ErrNoRows)
  }

  // ---- UPDATE and DELETE statements ----

  /** `UpdKeyRateLimitID`: UPDATE Keys SET ratelimitid = ?1 WHERE keyid = ?2;
      matching no key is not an error. */
  function UpdKeyRateLimitID(t: Tables, rateLimitID: string, keyID: string): Tables
  {
    if keyID in t.keys then t.(keys := t.keys[keyID := t.keys[keyID].(rateLimitID := Some(rateLimitID))]) else t
  }

  /** `DelPermissionByID`. */
  function DelPermissionByID(t: Tables, id: int): Tables
  {
    t.(perms := Seqs.Filter(t.perms, (p: PermRow) => p.id != id))
  }

  /** `DelPermissionByResourceID`. */
  function DelPermissionByResourceID(t: Tables, resourceID: string): Tables
  {
    t.(perms := Seqs.Filter(t.perms, (p: PermRow) => p.resourceID != resourceID))
  }

  /** `DelRPIEntryByRoleID`. */
  function DelRPIEntryByRoleID(t: Tables, roleID: string): Tables
  {
    t.(rolePerms := Seqs.Filter(t.rolePerms, (l: RolePermLink) => l.roleID != roleID))
  }

  /** `DelRoleByID`. */
  function DelRoleByID(t: Tables, roleID: string): Tables
  {
    t.(roles := t.roles - {roleID})
  }

  /** `DelResourceByID`. */
  function DelResourceByID(t: Tables, id: string): Tables
  {
    t.(resources := t.resources - {id})
  }

  /** `DelRateLimitByID`. */
  function DelRateLimitByID(t: Tables, id: string): Tables
  {
    t.(rateLimits := t.rateLimits - {id})
  }

  // ---- prepVarLenQuery ----

  /** `s` repeated `n` times. */
  function Repeat(s: string, n: nat): (r: string)
    ensures |r| == n * |s|
  {
    if n == 0 then "" else Repeat(s, n - 1) + s
  }

  /** Cutting `c`'s length off the end of `x + c` gives back `x`. */
  lemma DropSuffix(x: string, c: string)
    ensures (x + c)[..|x + c| - |c|] == x
  {
  }

  /** The text of the `i`-th (0-based) statement `prepVarLenQuery` prepares. */
  function VarLenStatement(base: string, repeated: string, conclusion: string, i: nat): string {
    base + Repeat(repeated, i + 1) + conclusion
  }

  /** `prepVarLenQuery`: panics when `repeats < 1`; otherwise prepares the
      statements with 1, 2, ..., `repeats` copies of the repeated section, each
      followed by the conclusion exactly once, and fails with the first
      preparation error. `prepare` stands for the driver's `Prepare`, which
      accepts or rejects a statement text. */
  method PrepVarLenQuery(base: string, repeated: string, conclusion: string, repeats: int,
                         prepare: string -> Option<Error>)
    returns (r: Result<seq<string>>)
    ensures repeats < 1 <==> r.Panic?
    ensures r.Ok? ==> |r.value| == repeats
    ensures r.Ok? ==> forall i :: 0 <= i < |r.value| ==> r.value[i] == VarLenStatement(base, repeated, conclusion, i)
    ensures r.Ok? ==> forall i :: 0 <= i < repeats ==> prepare(VarLenStatement(base, repeated, conclusion, i)).None?
    ensures r.Err? ==> exists k :: (0 <= k < repeats
      && prepare(VarLenStatement(base, repeated, conclusion, k)) == Some(r.error)
      && forall i :: 0 <= i < k ==> prepare(VarLenStatement(base, repeated, conclusion, i)).None?)
  {
    if repeats < 1 {
      return Panic("prepareVariableLengthQuery: bad argument value for repeats");
    }
    var query := base;
    var stmts: seq<string> := [];
    var i := 0;
    while i < repeats
      invariant 0 <= i <= repeats
      invariant query == base + Repeat(repeated, i)
      invariant |stmts| == i
      invariant forall j :: 0 <= j < i ==> stmts[j] == VarLenStatement(base, repeated, conclusion, j)
      invariant forall j :: 0 <= j < i ==> prepare(VarLenStatement(base, repeated, conclusion, j)).None?
    {
      query := query + repeated;
      ghost var grown := query;
      assert grown == base + Repeat(repeated, i + 1);
      query := query + conclusion;
      assert query == VarLenStatement(base, repeated, conclusion, i);
      var err := prepare(query);
      if err.Some? {
        return Err(err.value);
      }
      stmts := stmts + [query];
      DropSuffix(grown, conclusion);
      query := query[..|query| - |conclusion|];
      i := i + 1;
    }
    return Ok(stmts);
  }
}
