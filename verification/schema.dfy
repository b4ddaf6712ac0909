/** The SQLite tables behind the store, as the statement texts use them. The
    table definitions themselves are not part of this model; the columns and
    keys below are the ones the statements name. Row order in the sequence
    tables is insertion (rowid) order. */
module Schema {
  import opened Errors
  import OperationType
  import GoInts
  import Seqs

  /** Keys(keyid PK, note, ratelimitid NULLABLE, expires, created); times in Unix ms. */
  datatype KeyRow = KeyRow(note: string, rateLimitID: Option<string>, expiresMs: int, createdMs: int)

  /** `roleTypeRK`: 0 for a named role, 1 for a key's own self-role. */
  const ROLE_TYPE_ROLE: int := 0
  const ROLE_TYPE_KEY: int := 1

  /** Roles(roleid PK, roleTypeRK, rolePrecedence). */
  datatype RoleRow = RoleRow(roleType: int, precedence: int)

  /** KeyRoleIntersect(keyid, roleid), one row per pair. */
  datatype KeyRoleLink = KeyRoleLink(keyID: string, roleID: string)

  /** Permissions(permissionid PK, resourceid, permTypeRWMD, permTypeDenyAllow):
      a permission node. */
  datatype PermRow = PermRow(id: int, resourceID: string, op: OperationType.OpType, allow: bool)

  /** RolePermIntersect(roleid, permissionid), one row per pair. */
  datatype RolePermLink = RolePermLink(roleID: string, permID: int)

  /** Ratelimits(ratelimitid PK, requests, burst, reset); SQLite integers
      are 64-bit. */
  datatype RateLimitRow = RateLimitRow(requests: GoInts.Int64, burst: GoInts.Int64, reset: GoInts.Int64)

  datatype Tables = Tables(
    keys: map<string, KeyRow>,
    roles: map<string, RoleRow>,
    keyRoles: seq<KeyRoleLink>,
    resources: map<string, bv8>,        // Resources(resourceid PK, flags)
    perms: seq<PermRow>,
    rolePerms: seq<RolePermLink>,
    rateLimits: map<string, RateLimitRow>,
    nextPermID: int)                    // the rowid the next node receives

  /** The outcome of one store method run as a transaction: its result and
      the tables afterwards (the tables before, when it rolled back). */
  datatype Tx<T> = Tx(result: Result<T>, after: Tables)

  /** The (resource, operation, status) triple that identifies a node. */
  function Triple(p: PermRow): (string, OperationType.OpType, bool) {
    (p.resourceID, p.op, p.allow)
  }

  /** At most one node per triple. */
  predicate NodesUnique(perms: seq<PermRow>) {
    forall i, j :: 0 <= i < j < |perms| ==> Triple(perms[i]) != Triple(perms[j])
  }

  /** Node ids ascend in rowid order and stay below the next id. */
  predicate IdsAscending(perms: seq<PermRow>, next: int) {
    (forall i, j :: 0 <= i < j < |perms| ==> perms[i].id < perms[j].id)
    && (forall i :: 0 <= i < |perms| ==> perms[i].id < next)
  }

  /** The store invariant the permission methods keep. */
  predicate Valid(t: Tables) {
    NodesUnique(t.perms) && IdsAscending(t.perms, t.nextPermID)
    && Seqs.NoDuplicates(t.keyRoles) && Seqs.NoDuplicates(t.rolePerms)
  }

  predicate HasNodeID(t: Tables, id: int) {
    exists i :: 0 <= i < |t.perms| && t.perms[i].id == id
  }

  /** Number of RolePermIntersect rows that reference node `id`. */
  function References(t: Tables, id: int): (n: nat)
    ensures n == 0 <==> forall i :: 0 <= i < |t.rolePerms| ==> t.rolePerms[i].permID != id
  {
    Seqs.Count(t.rolePerms, (l: RolePermLink) => l.permID == id)
  }
}
