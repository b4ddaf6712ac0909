/** The older statement table's string builder
    (`dbimpl/sqlite/querymanager.go`). Its statement set is a subset of
    ImplQueryManager's: it lacks `GetKeyIDIfExists`, `GetKeyRateLimitID`,
    `DelRateLimitByID`, `UpdKeyRateLimitID`, `UpdRateLimitData`,
    `DelRPIEntryByRoleID` and `DelRoleByID`, and its `InsKeyData` has four
    placeholders where the newer one has five. Only the builder is modelled
    here; both stores run on ImplQueryManager's statements. */
module DbimplQueryManager {
  import opened Errors
  import Q = ImplQueryManager

  /** The statements from the `i`-th on, prepared in order, or the first
      preparation error. */
  function PrepareFrom(base: string, repeated: string, conclusion: string, i: nat, repeats: nat,
                       prepare: string -> Option<Error>): (r: Result<seq<string>>)
    requires i <= repeats
    ensures !r.Panic?
    ensures r.Ok? ==> (|r.value| == repeats - i
      && forall j :: 0 <= j < |r.value| ==> r.value[j] == Q.VarLenStatement(base, repeated, conclusion, i + j))
    ensures r.Ok? <==> forall j :: i <= j < repeats ==> prepare(Q.VarLenStatement(base, repeated, conclusion, j)).None?
    ensures r.Err? ==> exists k :: (i <= k < repeats
      && prepare(Q.VarLenStatement(base, repeated, conclusion, k)) == Some(r.error)
      && forall j :: i <= j < k ==> prepare(Q.VarLenStatement(base, repeated, conclusion, j)).None?)
    decreases repeats - i
  {
    if i == repeats then Ok([])
    else
      var stmt := Q.VarLenStatement(base, repeated, conclusion, i);
      var err := prepare(stmt);
      if err.Some? then Err(err.value)
      else
        var rest := PrepareFrom(base, repeated, conclusion, i + 1, repeats, prepare);
        PrepareStep(base, repeated, conclusion, i, repeats, prepare);
        if rest.Ok? then
          StatementsCons(base, repeated, conclusion, i, stmt, rest.value);
          Ok([stmt] + rest.value)
        else rest
  }

  /** The statement for `i` followed by those from `i + 1` are those from `i`. */
  lemma StatementsCons(base: string, repeated: string, conclusion: string, i: nat, stmt: string, rest: seq<string>)
    requires stmt == Q.VarLenStatement(base, repeated, conclusion, i)
    requires forall j :: 0 <= j < |rest| ==> rest[j] == Q.VarLenStatement(base, repeated, conclusion, i + 1 + j)
    ensures forall j :: 0 <= j < |[stmt] + rest| ==> ([stmt] + rest)[j] == Q.VarLenStatement(base, repeated, conclusion, i + j)
  {
    var all := [stmt] + rest;
    forall j | 1 <= j < |all| ensures all[j] == Q.VarLenStatement(base, repeated, conclusion, i + j) {
      assert all[j] == rest[j - 1];
    }
  }

  /** When statement `i` prepares, the statements from `i` all prepare
      exactly when those from `i + 1` do. */
  lemma PrepareStep(base: string, repeated: string, conclusion: string, i: nat, repeats: nat,
                    prepare: string -> Option<Error>)
    requires i < repeats && prepare(Q.VarLenStatement(base, repeated, conclusion, i)).None?
    ensures (forall j :: i <= j < repeats ==> prepare(Q.VarLenStatement(base, repeated, conclusion, j)).None?)
      <==> (forall j :: i + 1 <= j < repeats ==> prepare(Q.VarLenStatement(base, repeated, conclusion, j)).None?)
  {
  }

  /** `prepVarLenQuery`: panics when `repeats < 1`; otherwise the statements
      with 1, 2, ..., `repeats` copies of the repeated section, each ending in
      the conclusion once, or the first preparation error. */
  function PrepVarLenQuery(base: string, repeated: string, conclusion: string, repeats: int,
                           prepare: string -> Option<Error>): (r: Result<seq<string>>)
    ensures r.Panic? <==> repeats < 1
    ensures r.Ok? ==> (|r.value| == repeats
      && forall i :: 0 <= i < repeats ==> r.value[i] == Q.VarLenStatement(base, repeated, conclusion, i))
    ensures r.Ok? <==> repeats >= 1 && forall i :: 0 <= i < repeats ==> prepare(Q.VarLenStatement(base, repeated, conclusion, i)).None?
  {
    if repeats < 1 then Panic("prepareVariableLengthQuery: bad argument value for repeats")
    else PrepareFrom(base, repeated, conclusion, 0, repeats, prepare)
  }
}
