/** The first revision of the SQLite store (`dbimpl/sqlite/sqlite.go`): the
    table-set validator `Check`, the placeholder builder
    `createResourcePermission`, and the old `CreateKey` guard and
    `GetResourceData` row dispatch. The rest of that file is unimplemented
    stubs or driver plumbing. */
module DbimplSqlite {
  import opened Errors
  import Seqs
  import Strconv
  import OperationType
  import EntitiesKey
  import EntitiesPermission
  import DbimplKey
  import Schema

  // ---- Check ----

  /** The tables a sound database holds, `sqlite_master` included. */
  const TABLES: seq<string> := ["KeyRoleIntersect", "Keys", "Permissions", "Ratelimits",
                                "Resources", "KeyPermIntersect", "Roles", "sqlite_master"]

  /** The position of the first element of `xs` not listed in `ys`, or `|xs|`. */
  function FirstOutside(xs: seq<string>, ys: seq<string>): (i: nat)
    ensures i <= |xs|
    ensures forall j :: 0 <= j < i ==> xs[j] in ys
    ensures i < |xs| ==> xs[i] !in ys
    decreases |xs|
  {
    if |xs| == 0 || xs[0] !in ys then 0 else 1 + FirstOutside(xs[1..], ys)
  }

  /** The listing `names` is what the expected `tables` call for: every
      name is expected and every expected table is listed. */
  predicate Accepts(tables: seq<string>, names: seq<string>) {
    (forall i :: 0 <= i < |names| ==> names[i] in tables) && forall n :: n in tables ==> n in names
  }

  /** `Check`: every scanned table name must be one of `TABLES` (the first
      stranger is reported), and then every expected table must have been
      seen (the first unseen one in map iteration order `mapOrder` is
      reported). Duplicated names are harmless. */
  method Check(names: seq<string>, mapOrder: seq<string>) returns (err: Option<Error>)
    requires Seqs.NoDuplicates(mapOrder) && forall n :: n in mapOrder <==> n in TABLES
    ensures err.None? <==> Accepts(TABLES, names)
    ensures var k := FirstOutside(names, TABLES);
      k < |names| ==> err == Some(ErrExtraneousTable(names[k]))
    ensures var k := FirstOutside(names, TABLES);
      var m := FirstOutside(mapOrder, names);
      k == |names| && m < |mapOrder| ==> err == Some(ErrMissingTable(mapOrder[m]))
  {
    err := CheckAgainst(TABLES, names, mapOrder);
  }

  /** `Check` against any list of expected tables. */
  method CheckAgainst(tables: seq<string>, names: seq<string>, mapOrder: seq<string>) returns (err: Option<Error>)
    requires Seqs.NoDuplicates(mapOrder) && forall n :: n in mapOrder <==> n in tables
    ensures err.None? <==> Accepts(tables, names)
    ensures var k := FirstOutside(names, tables);
      k < |names| ==> err == Some(ErrExtraneousTable(names[k]))
    ensures var k := FirstOutside(names, tables);
      var m := FirstOutside(mapOrder, names);
      k == |names| && m < |mapOrder| ==> err == Some(ErrMissingTable(mapOrder[m]))
  {
    var seen: set<string> := {};
    var i := 0;
    while i < |names|
      invariant 0 <= i <= |names|
      invariant forall j :: 0 <= j < i ==> names[j] in tables
      invariant forall n :: n in seen <==> n in names[..i]
      invariant FirstOutside(names, tables) >= i
    {
      if names[i] !in tables {
        return Some(ErrExtraneousTable(names[i]));
      }
      assert names[..i + 1] == names[..i] + [names[i]];
      seen := seen + {names[i]};
      i := i + 1;
    }
    assert names[..i] == names;
    var k := 0;
    while k < |mapOrder|
      invariant 0 <= k <= |mapOrder|
      invariant forall j :: 0 <= j < k ==> mapOrder[j] in seen
      invariant FirstOutside(mapOrder, names) >= k
    {
      if mapOrder[k] !in seen {
        return Some(ErrMissingTable(mapOrder[k]));
      }
      k := k + 1;
    }
    return None;
  }

  /** `Check` as written: each name is scanned into a string value rather
      than a pointer, so a listing with any table fails its first scan; an
      empty listing reports the first expected table in map order missing.
      Every database is refused, a sound one included. */
  function CheckAsWritten(names: seq<string>, mapOrder: seq<string>): (err: Option<Error>)
    requires Seqs.NoDuplicates(mapOrder) && forall n :: n in mapOrder <==> n in TABLES
    ensures err.Some?
    ensures |names| > 0 ==> err == Some(ErrStore(SCAN_NOT_POINTER))
    ensures |names| == 0 ==> exists n :: n in TABLES && err == Some(ErrMissingTable(n))
  {
    assert TABLES[0] in mapOrder;
    if |names| > 0 then Some(ErrStore(SCAN_NOT_POINTER)) else Some(ErrMissingTable(mapOrder[0]))
  }

  /** The listing of a sound database meets `Accepts`, the condition under
      which `Check` returns no error, and is refused as written. */
  lemma CheckAsWrittenRefusesSound(mapOrder: seq<string>)
    requires Seqs.NoDuplicates(mapOrder) && forall n :: n in mapOrder <==> n in TABLES
    ensures Accepts(TABLES, TABLES)
    ensures CheckAsWritten(TABLES, mapOrder) == Some(ErrStore(SCAN_NOT_POINTER))
  {
  }

  // ---- createResourcePermission ----

  /** One row of placeholders in the VALUES list. */
  const GROUP: string := "(?, ?, ?)"

  const INSERT_PERMISSIONS: string := "INSERT INTO Permissions (resourceid, permTypeRWMD, permTypeDenyAllow) VALUES "

  /** `strings.Join(parts, sep)`: the parts with `sep` between neighbours. */
  function Join(parts: seq<string>, sep: string): string
    decreases |parts|
  {
    if |parts| == 0 then ""
    else if |parts| == 1 then parts[0]
    else Join(parts[..|parts| - 1], sep) + sep + parts[|parts| - 1]
  }

  /** `n` copies of `GROUP`. */
  function Groups(n: nat): (gs: seq<string>)
    ensures |gs| == n && forall i :: 0 <= i < n ==> gs[i] == GROUP
  {
    seq(n, _ => GROUP)
  }

  /** How a status is bound: "1" for allow, "0" for deny. */
  function StatusText(status: bool): string {
    if status then "1" else "0"
  }

  /** Row `i` of a flat parameter list bound three to a row. */
  function Row(params: seq<string>, i: nat): seq<string>
    requires 3 * i + 3 <= |params|
  {
    params[3 * i..3 * i + 3]
  }

  /** Appending a row of three keeps the earlier rows and adds it last. */
  lemma RowsSnoc(rest: seq<string>, row: seq<string>)
    requires |rest| % 3 == 0 && |row| == 3
    ensures forall i :: 0 <= i < |rest| / 3 ==> Row(rest + row, i) == Row(rest, i)
    ensures Row(rest + row, |rest| / 3) == row
  {
    var ps := rest + row;
    forall i | 0 <= i < |rest| / 3 ensures Row(ps, i) == Row(rest, i) {
      assert ps[3 * i..3 * i + 3] == rest[3 * i..3 * i + 3];
    }
    assert ps[|rest|..|rest| + 3] == row;
  }

  /** Every parameter is one of `allowed`. */
  predicate DrawnFrom(ps: seq<string>, allowed: set<string>) {
    forall j :: 0 <= j < |ps| ==> ps[j] in allowed
  }

  /** Appending a row of allowed values keeps every value allowed. */
  lemma AllowedSnoc(rest: seq<string>, row: seq<string>, allowed: set<string>)
    requires DrawnFrom(rest, allowed) && DrawnFrom(row, allowed)
    ensures DrawnFrom(rest + row, allowed)
  {
    assert forall j :: |rest| <= j < |rest + row| ==> (rest + row)[j] == row[j - |rest|];
  }

  /** The parameters as `createResourcePermission` appends them: per entry the
      operation as a decimal, then the resource id, then the status. The
      role names never reach the list. */
  function ParamsAsWritten(resourceID: string, statuses: seq<bool>, op: OperationType.OpType): (ps: seq<string>)
    ensures |ps| == 3 * |statuses|
    ensures forall i :: 0 <= i < |statuses| ==>
      Row(ps, i) == [Strconv.FormatInt(op as int), resourceID, StatusText(statuses[i])]
    ensures DrawnFrom(ps, {Strconv.FormatInt(op as int), resourceID, "1", "0"})
    decreases |statuses|
  {
    if |statuses| == 0 then []
    else
      var n := |statuses| - 1;
      var rest := ParamsAsWritten(resourceID, statuses[..n], op);
      var row := [Strconv.FormatInt(op as int), resourceID, StatusText(statuses[n])];
      RowsSnoc(rest, row);
      AllowedSnoc(rest, row, {Strconv.FormatInt(op as int), resourceID, "1", "0"});
      assert forall i :: 0 <= i < n ==> statuses[..n][i] == statuses[i];
      rest + row
  }

  /** The parameters in the order of the statement's column list
      (resourceid, permTypeRWMD, permTypeDenyAllow). */
  function Params(resourceID: string, statuses: seq<bool>, op: OperationType.OpType): (ps: seq<string>)
    ensures |ps| == 3 * |statuses|
    ensures forall i :: 0 <= i < |statuses| ==>
      Row(ps, i) == [resourceID, Strconv.FormatInt(op as int), StatusText(statuses[i])]
    decreases |statuses|
  {
    if |statuses| == 0 then []
    else
      var n := |statuses| - 1;
      var rest := Params(resourceID, statuses[..n], op);
      var row := [resourceID, Strconv.FormatInt(op as int), StatusText(statuses[n])];
      RowsSnoc(rest, row);
      assert forall i :: 0 <= i < n ==> statuses[..n][i] == statuses[i];
      rest + row
  }

  /** The statuses of `permMap` in iteration order `order`. */
  function Statuses(permMap: map<string, bool>, order: seq<string>): (ss: seq<bool>)
    requires forall r :: r in order ==> r in permMap
    ensures |ss| == |order| && forall i :: 0 <= i < |order| ==> ss[i] == permMap[order[i]]
  {
    seq(|order|, i requires 0 <= i < |order| => permMap[order[i]])
  }

  lemma GroupsSnoc(n: nat)
    ensures n > 0 ==> Join(Groups(n + 1), ", ") == Join(Groups(n), ", ") + ", " + GROUP
    ensures n == 0 ==> Join(Groups(1), ", ") == GROUP
  {
    assert Groups(n + 1)[..n] == Groups(n);
  }

  /** One pass of the statement-building loop extends the text by a group,
      and a separator unless it was the last. */
  lemma QueryStep(q: string, iters: nat, size: nat)
    requires iters < size
    requires iters == 0 ==> q == ""
    requires 0 < iters ==> q == Join(Groups(iters), ", ") + ", "
    ensures var q1 := q + GROUP;
      (if iters + 1 < size then q1 + ", " else q1)
        == Join(Groups(iters + 1), ", ") + (if iters + 1 < size then ", " else "")
  {
    GroupsSnoc(iters);
  }

  lemma StatusesSnoc(resourceID: string, permMap: map<string, bool>, order: seq<string>, i: nat, op: OperationType.OpType)
    requires i < |order| && forall r :: r in order ==> r in permMap
    ensures ParamsAsWritten(resourceID, Statuses(permMap, order[..i + 1]), op)
      == ParamsAsWritten(resourceID, Statuses(permMap, order[..i]), op)
         + [Strconv.FormatInt(op as int), resourceID, StatusText(permMap[order[i]])]
  {
    assert Statuses(permMap, order[..i + 1])[..i] == Statuses(permMap, order[..i]);
  }

  /** `createResourcePermission`: one placeholder group per entry of
      `permMap` (visited in iteration order `order`), joined by ", " with no
      trailing separator, and three parameters per entry; `exec` stands for
      running the statement. */
  method CreateResourcePermission(resourceID: string, permMap: map<string, bool>, order: seq<string>,
                                  op: OperationType.OpType, exec: (string, seq<string>) -> Option<Error>)
    returns (stmt: string, params: seq<string>, err: Option<Error>)
    requires Seqs.NoDuplicates(order) && forall r :: r in order <==> r in permMap
    ensures stmt == INSERT_PERMISSIONS + Join(Groups(|permMap|), ", ")
    ensures params == ParamsAsWritten(resourceID, Statuses(permMap, order), op)
    ensures |params| == 3 * |permMap|
    ensures err == exec(stmt, params)
  {
    Seqs.DistinctCount(order, permMap.Keys);
    var size := |permMap|;
    var iters := 0;
    var query := "";
    params := [];
    while iters < |order|
      invariant 0 <= iters <= |order| == size
      invariant iters == 0 ==> query == ""
      invariant 0 < iters ==> query == Join(Groups(iters), ", ") + (if iters < size then ", " else "")
      invariant params == ParamsAsWritten(resourceID, Statuses(permMap, order[..iters]), op)
    {
      var status := permMap[order[iters]];
      QueryStep(query, iters, size);
      StatusesSnoc(resourceID, permMap, order, iters, op);
      iters := iters + 1;
      query := query + GROUP;
      if iters < size {
        query := query + ", ";
      }
      params := params + [Strconv.FormatInt(op as int), resourceID, StatusText(status)];
    }
    assert order[..iters] == order;
    stmt := INSERT_PERMISSIONS + query;
    err := exec(stmt, params);
  }

  /** As written, every row binds the operation to the resourceid column and
      the resource id to the permTypeRWMD column: the rows are the intended
      ones with their first two columns exchanged. */
  lemma ParamsSwapColumns(resourceID: string, statuses: seq<bool>, op: OperationType.OpType, i: nat)
    requires i < |statuses|
    ensures var w := Row(ParamsAsWritten(resourceID, statuses, op), i);
      var c := Row(Params(resourceID, statuses, op), i);
      w == [c[1], c[0], c[2]] && w[0] == Strconv.FormatInt(op as int)
  {
  }

  /** The swap is visible: for a resource whose id is not the decimal text
      of the operation, the as-written first row names a different
      resource. */
  lemma ParamsAsWrittenMisnameResource()
    ensures Row(ParamsAsWritten("docs", [true], OperationType.READ), 0)[0] != "docs"
    ensures Row(Params("docs", [true], OperationType.READ), 0)[0] == "docs"
  {
    assert Row(ParamsAsWritten("docs", [true], OperationType.READ), 0)[0] == Strconv.FormatInt(0);
    assert Strconv.FormatInt(0) == Strconv.NatDigits(0);
    assert |Strconv.NatDigits(0)| == 1;
  }

  // ---- the old CreateKey guard ----

  /** The guard of the old `CreateKey`: it refuses, before touching the
      store, exactly the keys that DO have an id. */
  function OldCreateKeyGuard(k: EntitiesKey.Key): (e: Option<Error>)
    ensures e.Some? <==> k.id != ""
    ensures e.Some? ==> e.value == ErrRequiredField("keyid")
  {
    if k.id != "" then Some(ErrRequiredField("keyid")) else None
  }

  /** The old guard is the negation of the current one: every key the current
      `CreateKey` can store is refused by the old guard, and the only keys
      the old guard admits are the ones the current `CreateKey` refuses. */
  lemma OldGuardInverted(t: Schema.Tables, k: EntitiesKey.Key)
    ensures DbimplKey.CreateKey(t, k).result.Ok? ==> OldCreateKeyGuard(k).Some?
    ensures OldCreateKeyGuard(k).None? ==>
      DbimplKey.CreateKey(t, k) == Schema.Tx(Err(ErrRequiredField("keyid")), t)
  {
  }

  // ---- the old GetResourceData dispatch ----

  /** One row of the resource's role-permission join: role, status, op. */
  datatype RolePermRow = RolePermRow(role: string, status: bool, op: OperationType.OpType)

  predicate Declared(row: RolePermRow) {
    OperationType.IsDeclared(row.op)
  }

  /** One row of the switch: a declared op writes the role's status into that
      op's node map; any other op leaves the resource alone and logs one line. */
  function DispatchRow(p: EntitiesPermission.Resource, row: RolePermRow): (r: (EntitiesPermission.Resource, nat))
    ensures r.1 == (if Declared(row) then 0 else 1)
    ensures r.0.id == p.id && r.0.flags == p.flags
  {
    if row.op == OperationType.READ then (p.(readNodes := p.readNodes[row.role := row.status]), 0)
    else if row.op == OperationType.WRITE then (p.(writeNodes := p.writeNodes[row.role := row.status]), 0)
    else if row.op == OperationType.MODIFY then (p.(modifyNodes := p.modifyNodes[row.role := row.status]), 0)
    else if row.op == OperationType.DELETE then (p.(deleteNodes := p.deleteNodes[row.role := row.status]), 0)
    else (p, 1)
  }

  /** True when some row of `rows` names `role` with operation `op`. */
  predicate Mentions(rows: seq<RolePermRow>, role: string, op: OperationType.OpType) {
    exists i :: 0 <= i < |rows| && rows[i].role == role && rows[i].op == op
  }

  /** The row loop of the old `GetResourceData`, with the node maps in
      existence: rows are applied in order, so a later row for the same role
      and op wins. The second component counts the "bad db state" log lines. */
  function Dispatch(p: EntitiesPermission.Resource, rows: seq<RolePermRow>): (r: (EntitiesPermission.Resource, nat))
    ensures r.1 == Seqs.Count(rows, (x: RolePermRow) => !Declared(x))
    ensures r.0.id == p.id && r.0.flags == p.flags
    ensures forall role :: role in r.0.readNodes <==> role in p.readNodes || Mentions(rows, role, OperationType.READ)
    ensures forall role :: role in r.0.writeNodes <==> role in p.writeNodes || Mentions(rows, role, OperationType.WRITE)
    ensures forall role :: role in r.0.modifyNodes <==> role in p.modifyNodes || Mentions(rows, role, OperationType.MODIFY)
    ensures forall role :: role in r.0.deleteNodes <==> role in p.deleteNodes || Mentions(rows, role, OperationType.DELETE)
    decreases |rows|
  {
    if |rows| == 0 then (p, 0)
    else
      var n := |rows| - 1;
      var prefix := Dispatch(p, rows[..n]);
      var last := DispatchRow(prefix.0, rows[n]);
      CountSnoc(rows, (x: RolePermRow) => !Declared(x));
      MentionsSnoc(rows);
      (last.0, prefix.1 + last.1)
  }

  lemma {:induction false} CountSnoc<T>(s: seq<T>, p: T -> bool)
    requires |s| > 0
    ensures Seqs.Count(s, p) == Seqs.Count(s[..|s| - 1], p) + (if p(s[|s| - 1]) then 1 else 0)
    decreases |s|
  {
    if |s| > 1 {
      assert s[1..][..|s[1..]| - 1] == s[..|s| - 1][1..];
      CountSnoc(s[1..], p);
    }
  }

  lemma MentionsSnoc(rows: seq<RolePermRow>)
    requires |rows| > 0
    ensures forall role, op :: Mentions(rows, role, op) <==>
      Mentions(rows[..|rows| - 1], role, op) || (rows[|rows| - 1].role == role && rows[|rows| - 1].op == op)
  {
    var n := |rows| - 1;
    forall role, op | Mentions(rows, role, op) && !(rows[n].role == role && rows[n].op == op)
      ensures Mentions(rows[..n], role, op)
    {
      var i :| 0 <= i < |rows| && rows[i].role == role && rows[i].op == op;
      assert rows[..n][i] == rows[i];
    }
    forall role, op | Mentions(rows[..n], role, op) ensures Mentions(rows, role, op) {
      var i :| 0 <= i < n && rows[..n][i].role == role && rows[..n][i].op == op;
      assert rows[i] == rows[..n][i];
    }
  }

  /** The last row of a declared op decides that role's status. */
  lemma DispatchLastWins(p: EntitiesPermission.Resource, rows: seq<RolePermRow>, row: RolePermRow)
    ensures var q := Dispatch(p, rows + [row]).0;
      (row.op == OperationType.READ ==> q.readNodes[row.role] == row.status)
      && (row.op == OperationType.WRITE ==> q.writeNodes[row.role] == row.status)
      && (row.op == OperationType.MODIFY ==> q.modifyNodes[row.role] == row.status)
      && (row.op == OperationType.DELETE ==> q.deleteNodes[row.role] == row.status)
  {
    assert (rows + [row])[..|rows|] == rows;
  }

  /** Rows with an undeclared op have no effect on the resource: dispatching
      all rows gives what dispatching the declared ones alone gives. */
  lemma {:induction false} UnknownRowsIgnored(p: EntitiesPermission.Resource, rows: seq<RolePermRow>)
    ensures Dispatch(p, rows).0 == Dispatch(p, Seqs.Filter(rows, Declared)).0
    decreases |rows|
  {
    if |rows| > 0 {
      var n := |rows| - 1;
      assert rows == rows[..n] + [rows[n]];
      Seqs.FilterConcat(rows[..n], [rows[n]], Declared);
      UnknownRowsIgnored(p, rows[..n]);
      var f := Seqs.Filter(rows[..n], Declared);
      if Declared(rows[n]) {
        assert Seqs.Filter([rows[n]], Declared) == [rows[n]];
        assert (f + [rows[n]])[..|f|] == f;
      } else {
        assert Seqs.Filter([rows[n]], Declared) == [];
        assert f + [] == f;
      }
    }
  }

  /** The zero resource the old `GetResourceData` declares: id and flags
      zero, node maps nil. (As written the loop is never entered with a row:
      the flag scan runs without `Next` and into a value and returns its
      error first, and the row iterator scans the same way, so it never
      yields. The loop below is modelled on its own.) */
  const ZERO_RESOURCE: EntitiesPermission.Resource := EntitiesPermission.Resource(0, 0, map[], map[], map[], map[])

  /** The old `GetResourceData` row loop as written, run on the zero
      resource: its node maps are nil, so the first row with a declared op
      panics; without one every row is logged and the zero resource is
      returned. */
  function DispatchAsWritten(rows: seq<RolePermRow>): (r: Result<(EntitiesPermission.Resource, nat)>)
    ensures r.Panic? <==> exists i :: 0 <= i < |rows| && Declared(rows[i])
    ensures r.Ok? ==> r.value == (ZERO_RESOURCE, |rows|)
    ensures !r.Err?
  {
    var k := Seqs.FirstIndex(rows, Declared);
    if k < |rows| then Panic("assignment to entry in nil map")
    else
      assert Seqs.Count(rows, (x: RolePermRow) => !Declared(x)) == |rows| by {
        CountAll(rows, (x: RolePermRow) => !Declared(x));
      }
      Ok((ZERO_RESOURCE, |rows|))
  }

  lemma {:induction false} CountAll<T>(s: seq<T>, p: T -> bool)
    requires forall i :: 0 <= i < |s| ==> p(s[i])
    ensures Seqs.Count(s, p) == |s|
    decreases |s|
  {
    if |s| > 0 {
      CountAll(s[1..], p);
    }
  }

  /** A single read grant makes the as-written loop panic, while the loop
      over initialised maps records it. */
  lemma DispatchAsWrittenPanics()
    ensures DispatchAsWritten([RolePermRow("admin", true, OperationType.READ)]).Panic?
    ensures Dispatch(ZERO_RESOURCE, [RolePermRow("admin", true, OperationType.READ)]).0.readNodes == map["admin" := true]
  {
    var rows := [RolePermRow("admin", true, OperationType.READ)];
    assert Declared(rows[0]);
    assert rows[..0] == [];
  }
}
