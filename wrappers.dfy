/** Option and Result, the failure-compatible wrappers the services use. */
module Wrappers {

  /** A value that may be absent (a nullable column, `first()` returning None). */
  datatype Option<+T> = None | Some(value: T)

  /** The outcome of an operation that may raise. */
  datatype Result<+R, +E> = Success(value: R) | Failure(error: E)
}
