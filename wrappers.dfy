/** Failure-carrying result types shared by every module: the model's
    counterpart of Go's `(value, error)` returns. */
module Wrappers {

  datatype Option<+T> = None | Some(value: T)

  /** A value, or the error the source would have returned instead. */
  datatype Result<+T, +E> = Ok(value: T) | Err(error: E)

  /** The result of an operation that returns only an `error`. */
  datatype Outcome<+E> = Pass | Fail(error: E)
}
