/** Failure-compatible wrappers shared by every module of the model:
    `Option` for a value that may be absent (Python's `None`) and `Result`
    for an operation that reports an error message instead of a value. */
module Wrappers {

  datatype Option<+T> = None | Some(value: T) {

    /** The value, or `default` when absent (Python's `x if x is not None else default`). */
    function GetOr(default: T): T {
      match this
      case Some(v) => v
      case None => default
    }
  }

  datatype Result<+R, +E> = Success(value: R) | Failure(error: E)
}
