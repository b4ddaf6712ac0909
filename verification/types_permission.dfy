/** The oldest access specifier, `types.Permission`: a public switch and
    per-key and per-role status maps, with an `AccessStatus` enum whose order
    is inverted relative to the later revisions. */
module TypesPermission {
  import opened Errors
  import GoInts
  import EntitiesKey

  /** `types.AccessStatus` is an int8; the maps may hold any int8. */
  type AccessStatus = GoInts.Int8

  const ALLOWED: AccessStatus := -1
  const NEUTRAL: AccessStatus := 0
  const DENIED: AccessStatus := 1

  datatype Permission = Permission(
    public: bool,
    readKeys: map<string, AccessStatus>,
    readRoles: map<string, AccessStatus>,
    writeKeys: map<string, AccessStatus>,
    writeRoles: map<string, AccessStatus>)

  /** A role entry that ends the role loop: present and not Neutral. */
  predicate Decisive(roles: map<string, AccessStatus>, role: string) {
    role in roles && roles[role] != NEUTRAL
  }

  /** The first role with a decisive entry, or `|roles|`. */
  function FirstDecisive(m: map<string, AccessStatus>, roles: seq<string>): (i: nat)
    ensures i <= |roles|
    ensures forall j :: 0 <= j < i ==> !Decisive(m, roles[j])
    ensures i < |roles| ==> Decisive(m, roles[i])
    decreases |roles|
  {
    if |roles| == 0 || Decisive(m, roles[0]) then 0
    else 1 + FirstDecisive(m, roles[1..])
  }

  /** `Permission.CheckRead`. A public permission allows without reading any
      map; otherwise the key is dereferenced, which panics for a nil key. */
  function CheckRead(p: Permission, key: Option<EntitiesKey.Key>): (r: Result<AccessStatus>)
    ensures p.public ==> r == Ok(ALLOWED)
    ensures !p.public && key.None? ==> r.Panic?
    ensures !p.public && key.Some? && key.value.id in p.readKeys ==>
      r == Ok(p.readKeys[key.value.id])
    ensures !p.public && key.Some? && key.value.id !in p.readKeys ==>
      r.Ok? && (r.value == NEUTRAL <==>
        forall i :: 0 <= i < |key.value.roles| ==> !Decisive(p.readRoles, key.value.roles[i]))
    ensures !p.public && key.Some? && key.value.id !in p.readKeys ==>
      forall i :: 0 <= i < |key.value.roles| && Decisive(p.readRoles, key.value.roles[i])
        && (forall j :: 0 <= j < i ==> !Decisive(p.readRoles, key.value.roles[j]))
        ==> r == Ok(p.readRoles[key.value.roles[i]])
  {
    if p.public then Ok(ALLOWED)
    else if key.None? then Panic("nil pointer dereference")
    else if key.value.id in p.readKeys then Ok(p.readKeys[key.value.id])
    else
      var i := FirstDecisive(p.readRoles, key.value.roles);
      if i == |key.value.roles| then Ok(NEUTRAL) else Ok(p.readRoles[key.value.roles[i]])
  }

  /** A Neutral key entry is returned as it is: it does not fall through to
      the roles, even when a role would allow. */
  lemma NeutralKeyEntryIsFinal(p: Permission, k: EntitiesKey.Key)
    requires !p.public && k.id in p.readKeys && p.readKeys[k.id] == NEUTRAL
    ensures CheckRead(p, Some(k)) == Ok(NEUTRAL)
  {
  }

  /** In this enum Allowed sorts below Denied: -1, 0, 1. */
  lemma StatusValuesInverted()
    ensures ALLOWED == -1 && NEUTRAL == 0 && DENIED == 1
    ensures ALLOWED < NEUTRAL < DENIED
  {
  }
}
