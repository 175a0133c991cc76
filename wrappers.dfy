/** Option and Result, the value-level stand-ins for Java's null and thrown exceptions. */
module Wrappers {

  /** `None` plays the part of a Java `null` reference. */
  datatype Option<+T> = None | Some(value: T)

  /** `Failure` carries the exception a Java call would have thrown. */
  datatype Result<+R, +E> = Success(value: R) | Failure(error: E)
}
