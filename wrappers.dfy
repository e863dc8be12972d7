/** Failure-compatible wrapper types shared by the modules of this project. */
module Wrappers {

  /** A value that may be absent; stands for the source's `T | null`. */
  datatype Option<+T> = None | Some(value: T) {
    function GetOr(default: T): T {
      match this
      case Some(v) => v
      case None => default
    }
  }

  /** The outcome of an operation that either succeeds or throws an error. */
  datatype Outcome<+E> = Pass | Fail(error: E)

  /** A value or the error the source throws instead of returning it. */
  datatype Result<+T, +E> = Ok(value: T) | Err(error: E)
}
