/** Optional values and results with an error, as the Go code returns them. */
module Wrappers {

  /** A value that may be absent (a nil pointer or slice in Go). */
  datatype Option<+T> = None | Some(value: T)

  /** A value or an error (the `(value, error)` pairs of Go). */
  datatype Result<+T, +E> = Success(value: T) | Failure(error: E)
}
