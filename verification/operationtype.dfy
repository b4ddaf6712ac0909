/** `types.OperationType`: the int8 tag of what a request does to a file. */
module OperationType {
  import opened Errors
  import GoInts

  type OpType = GoInts.Int8

  const READ: OpType := 0
  const WRITE: OpType := 1
  const MODIFY: OpType := 2
  const DELETE: OpType := 3

  /** The four declared operation types. */
  predicate IsDeclared(op: OpType) {
    op == READ || op == WRITE || op == MODIFY || op == DELETE
  }

  /** `OperationType.Int`: the switch over the declared constants, and a
      panic for any other int8. */
  function Int(op: OpType): (r: Result<int>)
    ensures r.Ok? <==> 0 <= op <= 3
    ensures r.Ok? ==> r.value == op as int
    ensures !r.Ok? ==> r.Panic?
  {
    if op == READ then Ok(0)
    else if op == WRITE then Ok(1)
    else if op == MODIFY then Ok(2)
    else if op == DELETE then Ok(3)
    else Panic("OperationType to int conversion failure")
  }

  /** The constants are declared by `iota`: consecutive, starting at 0. */
  lemma ConstantsConsecutive()
    ensures READ == 0 && WRITE == READ + 1 && MODIFY == WRITE + 1 && DELETE == MODIFY + 1
    ensures forall op: OpType :: IsDeclared(op) <==> 0 <= op <= 3
  {
  }

  /** `Int` maps each declared constant to its position and fails on every
      other value. */
  lemma IntIsPosition()
    ensures Int(READ) == Ok(0) && Int(WRITE) == Ok(1) && Int(MODIFY) == Ok(2) && Int(DELETE) == Ok(3)
    ensures forall op: OpType :: !IsDeclared(op) ==> Int(op).Panic?
  {
  }
}
