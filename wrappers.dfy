/** Option and Result, the shapes of Go's `(value, ok)` and `(value, error)` returns. */
module Wrappers {

  datatype Option<+T> = None | Some(value: T)

  /** A Go `(T, error)` pair: the error is represented by its message text. */
  datatype Result<+T> = Ok(value: T) | Err(error: string)

  /** A bare Go `error`: nil, or an error with its message. */
  datatype Outcome = Pass | Fail(error: string)
}
