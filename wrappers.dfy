/** Failure-compatible result types shared by the model. */
module Wrappers {

  datatype Option<+T> = None | Some(value: T)

  /** The value of a computation that may throw. */
  datatype Result<+T, +E> = Ok(value: T) | Err(error: E)

  /** The outcome of an operation that returns Unit or throws. */
  datatype Outcome<+E> = Pass | Fail(error: E)
}
