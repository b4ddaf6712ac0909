/** `entities.Resource` (current revision): per-resource flags and a map of
    (key or role, operation) nodes that allow or deny, evaluated in a fixed
    precedence order. */
module EntitiesResource {
  import OperationType
  import EntitiesKey
  import opened Errors

  /** `AccessStatus` (int8): Denied, Neutral, Allowed, declared by `iota - 1`. */
  datatype AccessStatus = Denied | Neutral | Allowed
  {
    function Value(): int {
      match this
      case Denied => -1
      case Neutral => 0
      case Allowed => 1
    }
  }

  /** `Flags` is a uint8 bit set; `FlagPublicRead` is `1 << 0`. */
  type Flags = bv8

  const FLAG_PUBLIC_READ: Flags := 1

  /** `ResourceOperationAccess`: a key id, a role name or the wildcard `"*"`,
      paired with an operation type. */
  datatype OperationAccess = OperationAccess(id: string, op: OperationType.OpType)

  datatype Resource = Resource(
    id: string,
    flags: Flags,
    operationNodes: map<OperationAccess, bool>)

  const WILDCARD: string := "*"

  /** `Resource.GetID`. */
  function GetID(r: Resource): (id: string)
    ensures Resource(id, r.flags, r.operationNodes) == r
  {
    r.id
  }

  /** `Resource.PublicCanRead`: the `FlagPublicRead` bit of the flags. */
  function PublicCanRead(r: Resource): (can: bool)
    ensures can <==> (r.flags as int) % 2 == 1
  {
    (r.flags & FLAG_PUBLIC_READ) == FLAG_PUBLIC_READ
  }

  function FromBool(status: bool): (s: AccessStatus)
    ensures s != Neutral && (s == Allowed <==> status)
  {
    if status then Allowed else Denied
  }

  /** Whether `id` has a node for `op`. */
  predicate HasNode(r: Resource, id: string, op: OperationType.OpType) {
    OperationAccess(id, op) in r.operationNodes
  }

  function NodeStatus(r: Resource, id: string, op: OperationType.OpType): AccessStatus
    requires HasNode(r, id, op)
  {
    FromBool(r.operationNodes[OperationAccess(id, op)])
  }

  /** `roles[i]` is the first role of the list that has a node for `op`. */
  predicate FirstRoleWithNode(r: Resource, roles: seq<string>, op: OperationType.OpType, i: int) {
    0 <= i < |roles| && HasNode(r, roles[i], op)
    && forall j :: 0 <= j < i ==> !HasNode(r, roles[j], op)
  }

  /** The position the role loop of `checkKeyAccess` stops at: the first
      role with a node for `op`, or `|roles|` when there is none. */
  function FirstNodeIndex(r: Resource, roles: seq<string>, op: OperationType.OpType): (i: nat)
    ensures i <= |roles|
    ensures forall j :: 0 <= j < i ==> !HasNode(r, roles[j], op)
    ensures i < |roles| ==> HasNode(r, roles[i], op)
    decreases |roles|
  {
    if |roles| == 0 || HasNode(r, roles[0], op) then 0
    else 1 + FirstNodeIndex(r, roles[1..], op)
  }

  /** The role loop of `checkKeyAccess`: the first role in list order that has
      a node decides, and later roles are never consulted. */
  function RoleAccess(r: Resource, roles: seq<string>, op: OperationType.OpType): (s: AccessStatus)
    ensures s == Neutral <==> forall i :: 0 <= i < |roles| ==> !HasNode(r, roles[i], op)
    ensures forall i :: FirstRoleWithNode(r, roles, op, i) ==> s == NodeStatus(r, roles[i], op)
  {
    var i := FirstNodeIndex(r, roles, op);
    if i == |roles| then Neutral else NodeStatus(r, roles[i], op)
  }

  /** `checkKeyAccess`: the wildcard node, then the key's own node, then the
      key's roles in order; Neutral when none of them has a node. */
  function CheckKeyAccess(r: Resource, key: EntitiesKey.Key, op: OperationType.OpType): (s: AccessStatus)
    ensures HasNode(r, WILDCARD, op) ==> s == NodeStatus(r, WILDCARD, op)
    ensures !HasNode(r, WILDCARD, op) && HasNode(r, key.id, op) ==> s == NodeStatus(r, key.id, op)
    ensures !HasNode(r, WILDCARD, op) && !HasNode(r, key.id, op) ==>
      (s == Neutral <==> forall i :: 0 <= i < |key.roles| ==> !HasNode(r, key.roles[i], op))
    ensures !HasNode(r, WILDCARD, op) && !HasNode(r, key.id, op) ==>
      forall i :: FirstRoleWithNode(r, key.roles, op, i) ==> s == NodeStatus(r, key.roles[i], op)
  {
    if HasNode(r, WILDCARD, op) then NodeStatus(r, WILDCARD, op)
    else if HasNode(r, key.id, op) then NodeStatus(r, key.id, op)
    else RoleAccess(r, key.roles, op)
  }

  /** `Resource.CheckAccess`: without a key only a public read is allowed and
      every other request is denied, never Neutral; with a key the node
      precedence of `checkKeyAccess` applies. */
  function CheckAccess(r: Resource, key: Option<EntitiesKey.Key>, op: OperationType.OpType): (s: AccessStatus)
    ensures key.None? ==> s != Neutral && (s == Allowed <==> op == OperationType.READ && PublicCanRead(r))
    ensures key.Some? ==> s == CheckKeyAccess(r, key.value, op)
  {
    if key.None? then
      if op == OperationType.READ && PublicCanRead(r) then Allowed else Denied
    else CheckKeyAccess(r, key.value, op)
  }

  /** Whether any node consulted for `key` exists for `op`. */
  predicate AnyNode(r: Resource, key: EntitiesKey.Key, op: OperationType.OpType) {
    HasNode(r, WILDCARD, op) || HasNode(r, key.id, op)
    || exists i :: 0 <= i < |key.roles| && HasNode(r, key.roles[i], op)
  }

  /** A keyed request is Neutral exactly when no wildcard, key or role node
      exists for this operation. */
  lemma NeutralIffNoNode(r: Resource, key: EntitiesKey.Key, op: OperationType.OpType)
    ensures CheckAccess(r, Some(key), op) == Neutral <==> !AnyNode(r, key, op)
  {
  }

  /** Whenever a node decides, the result is Allowed iff its boolean is true. */
  lemma DecidedByBoolean(r: Resource, key: EntitiesKey.Key, op: OperationType.OpType)
    requires CheckAccess(r, Some(key), op) != Neutral
    ensures exists id :: (HasNode(r, id, op) &&
      (CheckAccess(r, Some(key), op) == Allowed <==> r.operationNodes[OperationAccess(id, op)]))
  {
    if HasNode(r, WILDCARD, op) {
    } else if HasNode(r, key.id, op) {
    } else {
      var i := FirstNodeIndex(r, key.roles, op);
      assert FirstRoleWithNode(r, key.roles, op, i);
    }
  }

  /** The two resources have the same nodes, with the same booleans, for `op`. */
  ghost predicate SameNodesFor(r1: Resource, r2: Resource, op: OperationType.OpType) {
    (forall id :: HasNode(r1, id, op) <==> HasNode(r2, id, op))
    && (forall id :: HasNode(r1, id, op) ==>
          HasNode(r2, id, op) && r1.operationNodes[OperationAccess(id, op)] == r2.operationNodes[OperationAccess(id, op)])
  }

  /** Two resources that agree on the nodes of `op` (and on their flags) give
      every request for `op` the same answer: nodes of other operations never
      matter. */
  lemma {:induction false} OtherOperationsIrrelevant(r1: Resource, r2: Resource, roles: seq<string>, op: OperationType.OpType)
    requires SameNodesFor(r1, r2, op)
    ensures FirstNodeIndex(r1, roles, op) == FirstNodeIndex(r2, roles, op)
    ensures RoleAccess(r1, roles, op) == RoleAccess(r2, roles, op)
    decreases |roles|
  {
    if |roles| > 0 && !HasNode(r1, roles[0], op) {
      OtherOperationsIrrelevant(r1, r2, roles[1..], op);
    }
  }

  lemma CheckAccessLocalToOperation(r1: Resource, r2: Resource, key: Option<EntitiesKey.Key>, op: OperationType.OpType)
    requires r1.flags == r2.flags
    requires SameNodesFor(r1, r2, op)
    ensures CheckAccess(r1, key, op) == CheckAccess(r2, key, op)
  {
    if key.Some? {
      OtherOperationsIrrelevant(r1, r2, key.value.roles, op);
    }
  }

  /** The status constants are -1, 0 and 1, ordered Denied < Neutral < Allowed. */
  lemma StatusValues()
    ensures Denied.Value() == -1 && Neutral.Value() == 0 && Allowed.Value() == 1
    ensures forall a: AccessStatus, b: AccessStatus :: a.Value() == b.Value() ==> a == b
  {
  }
}
