/** Option and Result values for absent data and error returns. */
module Wrappers {

  /** A value that may be absent (Python's `None`, a missing dictionary key). */
  datatype Option<+T> = None | Some(value: T)

  /** The outcome of an operation that can fail with an error describing why. */
  datatype Result<+T, +E> = Success(value: T) | Failure(error: E)
}
