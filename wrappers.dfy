/** Optional values and results with an error, as returned by the Go core. */
module Wrappers {

  /** A value that may be absent (Go's nil pointer, or a failed compile). */
  datatype Option<+T> = None | Some(value: T)

  /** A successful value or an error (Go's `(T, error)` return pair). */
  datatype Result<+T, +E> = Ok(value: T) | Err(error: E)
}
