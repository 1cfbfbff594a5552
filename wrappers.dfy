/** Failure-compatible result types used by the registry model. */
module Wrappers {

  /** A value that may be absent: the model of a Java reference that may be `null`. */
  datatype Option<+T> = None | Some(value: T)

  /** The result of an operation that returns a value or raises an exception. */
  datatype Result<+T, +E> = Success(value: T) | Failure(error: E)

  /** The result of a `void` operation that returns normally or raises an exception. */
  datatype Outcome<+E> = Pass | Fail(error: E)
}
