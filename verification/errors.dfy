/** Error vocabulary shared by every layer of the gateway, and the result type
    that carries either a value, a returned Go `error`, or a process-level abort
    (`panic`, `log.Panicf`, `log.Fatalf`). */
module Errors {

  datatype Option<+T> = None | Some(value: T)

  /** The errors the modelled code returns or compares against. */
  datatype Error =
    | ErrNoRows                        // database/sql: a single-row query matched nothing
    | ErrKeyMissing                    // the specified key does not exist
    | ErrNoDocuments                   // key store: no key with that id
    | ErrConstraint(table: string)     // a primary-key violation reported by the engine
    | ErrRequiredField(field: string)  // a required field is empty
    | ErrRowsAffected(n: int)          // an UPDATE touched a number of rows other than one
    | ErrBadPermissionType             // an operation type outside Read..Delete
    | ErrExtraneousTable(name: string) // Check: a table that should not exist
    | ErrMissingTable(name: string)    // Check: an expected table that was not found
    | ErrDecode                        // encoding/json could not decode the input
    | ErrStore(code: int)              // any other error raised below the modelled layer

  /** Codes of the `ErrStore` errors `database/sql` raises before reaching
      the engine. */
  const SCAN_NOT_POINTER: int := 1  // Scan into a value: "destination not a pointer"
  const BAD_ARGUMENT: int := 2      // a slice bound as one argument: "unsupported type"

  datatype Result<+T> =
    | Ok(value: T)
    | Err(error: Error)
    | Panic(reason: string)
  {
    predicate IsFailure() {
      !Ok?
    }

    function PropagateFailure<U>(): Result<U>
      requires IsFailure()
    {
      match this
      case Err(e) => Err(e)
      case Panic(m) => Panic(m)
    }

    function Extract(): T
      requires Ok?
    {
      value
    }
  }
}
