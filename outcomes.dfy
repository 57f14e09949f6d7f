/** Failure-carrying result types used across the model in place of Java exceptions. */
module Outcomes {

  datatype Option<+T> = None | Some(value: T)

  /** A computation that yields a value or fails with an error. */
  datatype Result<+T, +E> = Ok(value: T) | Err(error: E)

  /** A computation that yields nothing on success, or fails with an error. */
  datatype Outcome<+E> = Pass | Fail(error: E)
}
