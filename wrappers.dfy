/** Failure-carrying result types shared by the model. */
module Wrappers {

  /** A value that may be absent (std::optional, a null QDateTime). */
  datatype Option<+T> = None | Some(value: T)

  /** A computed value or the error that an exception would carry. */
  datatype Result<+T, +E> = Success(value: T) | Failure(error: E)

  /** The outcome of an operation that only succeeds or fails with an error. */
  datatype Outcome<+E> = Pass | Fail(error: E)
}
