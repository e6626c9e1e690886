/** Failure-carrying values used for the Go `(value, error)` returns of the model. */
module Wrappers {

  /** A value that may be absent; a Go `(T, error)` pair whose error carries no detail here. */
  datatype Option<+T> = None | Some(value: T)

  /** Either a value or a typed error, as the Go functions return `(*T, error)`. */
  datatype Result<+T, +E> = Success(value: T) | Failure(error: E)
}
