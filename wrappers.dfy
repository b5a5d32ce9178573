/** The Option, Result and Outcome datatypes used across the model. */
module Wrappers {

  /** A value that may be absent. */
  datatype Option<+T> = None | Some(value: T)

  /** Either a result or the message of the error the source raises. */
  datatype Result<+R, +E> = Success(value: R) | Failure(error: E)

  /** Success without a value, or the error raised. */
  datatype Outcome<+E> = Pass | Fail(error: E)
}
