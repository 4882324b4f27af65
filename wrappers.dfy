/** Option and result shapes standing in for the source's nullable returns and exceptions. */
module Wrappers {

  /** A value that may be absent (the source's `null`). */
  datatype Option<+T> = None | Some(value: T)

  /** The outcome of an operation that produces a value or fails with an error. */
  datatype Result<+R, +E> = Success(value: R) | Failure(error: E)

  /** The outcome of an operation that produces no value but may fail with an error. */
  datatype Outcome<+E> = Pass | Fail(error: E)
}
