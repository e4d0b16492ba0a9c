/** Option and Result, the model's stand-ins for Go's nil pointers and
    `(value, error)` return pairs. */
module Wrappers {

  /** A value that may be absent: a nullable column, a lookup that can miss. */
  datatype Option<+T> = None | Some(value: T)

  /** The outcome of a Go call returning `(T, error)`: `Err` whenever the
      error is non-nil, in which case the value is never read by a caller. */
  datatype Result<+T, +E> = Ok(value: T) | Err(error: E)
}
