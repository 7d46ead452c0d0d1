/** Failure-compatible result types used across the model. */
module Wrappers {

  /** A value that may be absent: Java's nullable references. */
  datatype Option<+T> = None | Some(value: T)

  /** The outcome of an operation that may throw: Java's unchecked exceptions. */
  datatype Result<+T> = Success(value: T) | Failure(error: string)
}
