/** Option and Result values used for the error returns of the Go code. */
module Wrappers {

  /** A value that may be missing: Go's nil pointer, or a failed read. */
  datatype Option<+T> = None | Some(value: T)

  /** Go's `(value, error)` pair: exactly one of the two is meaningful. */
  datatype Result<+T, +E> = Success(value: T) | Failure(error: E)
}
