/** Failure-compatible wrappers for the exceptions and nullable values of the trade core.

    Kotlin's nullable types (`Trade?`, `String?`) become `Option`; the exceptions the core can
    raise (`first()` on an empty list, `first { }` with no match, `IllegalStateException`)
    become the `Fail` case of `Result`, so every step states its error paths explicitly.
 */
module Results {

  /** A nullable value. */
  datatype Option<+T> = None | Some(value: T)

  /** The errors the core can raise. */
  datatype Error =
    | NotFound(kind: string, id: string)   // a lookup by id whose query came back empty
    | NoSuchElement(what: string)          // `first { predicate }` found no element
    | IllegalState(message: string)        // an `IllegalStateException`

  /** Either a value or the error that aborted the computation; usable with `:-`. */
  datatype Result<+T> = Ok(value: T) | Fail(error: Error) {

    predicate IsFailure() {
      Fail?
    }

    function PropagateFailure<U>(): Result<U>
      requires Fail?
    {
      Fail(error)
    }

    function Extract(): T
      requires Ok?
    {
      value
    }
  }
}
