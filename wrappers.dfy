/** Failure-carrying values used in place of Java's null references and exceptions. */
module Wrappers {

  /** A value that may be absent (Java's `Optional`, or a reference that may be null). */
  datatype Option<+T> = None | Some(value: T)

  /** The outcome of an operation that either yields a value or fails with an error. */
  datatype Result<+R, +E> = Success(value: R) | Failure(error: E)
}
