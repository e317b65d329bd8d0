/** Failure-carrying datatypes used across the model. */
module Wrappers {

  datatype Option<+T> = None | Some(value: T)

  /** A computation that produces a value or fails with an error (Rust's `Result`). */
  datatype Result<+R, +E> = Success(value: R) | Failure(error: E)

  /** A computation that either passes or fails with an error, carrying no value
      (Rust's `Result<(), E>`). */
  datatype Outcome<+E> = Pass | Fail(error: E)
}
