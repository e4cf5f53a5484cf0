/** Option and Result values for the error returns of the Go source. */
module Wrappers {

  datatype Option<T> = None | Some(value: T)

  /** A Go `(value, error)` pair where exactly one side is meaningful. */
  datatype Result<T, E> = Ok(value: T) | Err(error: E)
}
