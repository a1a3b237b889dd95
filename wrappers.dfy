/** Failure-carrying results: the model's stand-in for the exceptions the shop code throws. */
module Wrappers {

  /** A value that may be absent (Java's `Optional`). */
  datatype Option<+T> = None | Some(value: T)

  /** Either a value or the error that replaced it. */
  datatype Result<+R, +E> = Success(value: R) | Failure(error: E)

  /** Completion of a `void` operation: it either returns normally or throws `error`. */
  datatype Outcome<+E> = Pass | Fail(error: E)
}
