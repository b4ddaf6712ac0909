/** The older revision of `entities.Resource`: int8 flag bits for public and
    authenticated access per operation, and one node map per operation. Only
    its read check exists. */
module EntitiesPermission {
  import opened Errors
  import GoInts
  import EntitiesKey
  import EntitiesResource

  type AccessStatus = EntitiesResource.AccessStatus

  /** The bit pattern of the int8 `Flags`. */
  type Flags = bv8

  /** The value of the `i`-th flag constant, `1 << i` (i = 0 for
      `FlagPublicRead` through i = 7 for `FlagAuthedDelete`). */
  function FlagValue(i: nat): (v: int)
    requires i < 8
    ensures v >= 1
    decreases i
  {
    if i == 0 then 1 else 2 * FlagValue(i - 1)
  }

  const PUBLIC_READ: nat := 0
  const AUTHED_READ: nat := 1
  const AUTHED_DELETE: nat := 7

  /** Flag `i` is set in the bit pattern. */
  predicate HasFlag(flags: Flags, i: nat)
    requires i < 8
  {
    (flags & ((1 as Flags) << i)) == ((1 as Flags) << i)
  }

  datatype Resource = Resource(
    id: int,
    flags: Flags,
    readNodes: map<string, bool>,
    writeNodes: map<string, bool>,
    modifyNodes: map<string, bool>,
    deleteNodes: map<string, bool>)

  /** The first role in `roles` that has a read node, or `|roles|`. */
  function FirstReadNode(nodes: map<string, bool>, roles: seq<string>): (i: nat)
    ensures i <= |roles|
    ensures forall j :: 0 <= j < i ==> roles[j] !in nodes
    ensures i < |roles| ==> roles[i] in nodes
    decreases |roles|
  {
    if |roles| == 0 || roles[0] in nodes then 0
    else 1 + FirstReadNode(nodes, roles[1..])
  }

  /** The first role with a read node is the only role with a node and no
      earlier one; there is none exactly when no role has a node. */
  lemma FirstReadNodeUnique(nodes: map<string, bool>, roles: seq<string>)
    ensures var f := FirstReadNode(nodes, roles);
      (f == |roles| <==> forall i :: 0 <= i < |roles| ==> roles[i] !in nodes)
      && forall i :: 0 <= i < |roles| && roles[i] in nodes && (forall j :: 0 <= j < i ==> roles[j] !in nodes) ==> i == f
  {
  }

  /** `Resource.CheckRead`: without a key only `FlagPublicRead` allows and
      anything else denies; with a key `FlagAuthedRead` allows before any node
      is read, then the key's own read node decides, then the first role with
      a read node; Neutral otherwise. */
  function CheckRead(p: Resource, key: Option<EntitiesKey.Key>): (s: AccessStatus)
    ensures key.None? ==> (s != EntitiesResource.Neutral &&
      (s == EntitiesResource.Allowed <==> HasFlag(p.flags, PUBLIC_READ)))
    ensures key.Some? && HasFlag(p.flags, AUTHED_READ) ==> s == EntitiesResource.Allowed
    ensures key.Some? && !HasFlag(p.flags, AUTHED_READ) && key.value.id in p.readNodes ==>
      s == EntitiesResource.FromBool(p.readNodes[key.value.id])
    ensures key.Some? && !HasFlag(p.flags, AUTHED_READ) && key.value.id !in p.readNodes ==>
      (s == EntitiesResource.Neutral <==> forall i :: 0 <= i < |key.value.roles| ==> key.value.roles[i] !in p.readNodes)
    ensures key.Some? && !HasFlag(p.flags, AUTHED_READ) && key.value.id !in p.readNodes ==>
      forall i :: 0 <= i < |key.value.roles| && key.value.roles[i] in p.readNodes
        && (forall j :: 0 <= j < i ==> key.value.roles[j] !in p.readNodes)
        ==> s == EntitiesResource.FromBool(p.readNodes[key.value.roles[i]])
  {
    if key.None? then
      if HasFlag(p.flags, PUBLIC_READ) then EntitiesResource.Allowed else EntitiesResource.Denied
    else if HasFlag(p.flags, AUTHED_READ) then EntitiesResource.Allowed
    else if key.value.id in p.readNodes then EntitiesResource.FromBool(p.readNodes[key.value.id])
    else
      var i := FirstReadNode(p.readNodes, key.value.roles);
      FirstReadNodeUnique(p.readNodes, key.value.roles);
      if i == |key.value.roles| then EntitiesResource.Neutral
      else EntitiesResource.FromBool(p.readNodes[key.value.roles[i]])
  }

  /** The flag constants are eight distinct single bits, each twice the one
      declared before it. */
  lemma {:induction false} FlagsAreSingleBits(i: nat)
    requires i < 8
    ensures FlagValue(i) == ((1 as Flags) << i) as int
    ensures forall j :: 0 <= j < i ==> FlagValue(j) < FlagValue(i)
    decreases i
  {
    if i > 0 {
      FlagsAreSingleBits(i - 1);
    }
  }

  /** As declared, the last constant `FlagAuthedDelete = 1 << 7` is 128, which
      the int8 `Flags` type cannot hold; the seven before it fit. */
  lemma AuthedDeleteOverflowsInt8()
    ensures FlagValue(AUTHED_DELETE) == 128
    ensures !GoInts.IsInt8(FlagValue(AUTHED_DELETE))
    ensures forall i :: 0 <= i < AUTHED_DELETE ==> GoInts.IsInt8(FlagValue(i))
  {
    FlagsAreSingleBits(AUTHED_DELETE);
    forall i | 0 <= i < AUTHED_DELETE ensures GoInts.IsInt8(FlagValue(i)) {
      FlagsAreSingleBits(i);
    }
  }

  /** With an unsigned 8-bit `Flags` (as the later revision declares it) all
      eight constants fit, each as the bit pattern `1 << i`. */
  lemma FlagsFitUint8()
    ensures forall i :: 0 <= i < 8 ==> GoInts.IsUint8(FlagValue(i))
    ensures forall i :: 0 <= i < 8 ==> FlagValue(i) == ((1 as Flags) << i) as int
  {
    forall i | 0 <= i < 8
      ensures GoInts.IsUint8(FlagValue(i)) && FlagValue(i) == ((1 as Flags) << i) as int
    {
      FlagsAreSingleBits(i);
      FlagsAreSingleBits(7);
    }
  }
}
