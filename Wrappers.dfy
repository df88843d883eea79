/** Option and Result values that stand for Java's null and for thrown exceptions. */
module Wrappers {

  /** `None` plays the part of a Java `null` reference. */
  datatype Option<+T> = None | Some(value: T)

  /** `Failure` plays the part of an exception that reaches the caller. */
  datatype Result<+T, +E> = Success(value: T) | Failure(error: E)
}
