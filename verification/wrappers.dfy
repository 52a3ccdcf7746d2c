/** Option and Result types for the store's null returns and thrown errors. */
module Wrappers {

  /** A value or nothing (JavaScript `null` / `undefined`). */
  datatype Option<+T> = None | Some(value: T)

  /** A value, or the error an operation would throw. */
  datatype Result<+T, +E> = Ok(value: T) | Err(error: E)

  /** Success without a value, or the error an operation would throw. */
  datatype Outcome<+E> = Pass | Fail(error: E)
}
