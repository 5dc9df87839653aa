/** Failure-carrying wrappers used across the model: Go's `(T, error)` returns and panics. */
module Wrappers {

  datatype Option<+T> = None | Some(value: T)

  /** A value or the error that replaced it. */
  datatype Result<+T, +E> = Ok(value: T) | Err(error: E)

  /** A Go `error` return that carries no value: nil (`Pass`) or an error (`Fail`). */
  datatype Outcome<+E> = Pass | Fail(error: E)
}
