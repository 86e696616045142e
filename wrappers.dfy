/** Failure-compatible wrappers used across the model. */
module Wrappers {

  /** A value that may be missing (JavaScript's `undefined`/`null` where only presence matters). */
  datatype Option<+T> = None | Some(value: T)

  /** The outcome of an operation that can throw or report an error. */
  datatype Result<+R, +E> = Success(value: R) | Failure(error: E)
}
