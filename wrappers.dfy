/** Go's nil-or-value and value-or-error returns. */
module Wrappers {

  /** A value that may be absent (a nil pointer in Go). */
  datatype Option<+T> = None | Some(value: T)

  /** A value or the reason there is none. */
  datatype Result<+T, +E> = Success(value: T) | Failure(error: E)
}
