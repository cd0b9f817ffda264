/** Option, Result and Outcome: Java's null, a value-or-exception, and a void call that may throw. */
module Wrappers {

  /** A Java reference that may be null: None is null. */
  datatype Option<+T> = None | Some(value: T) {
    function GetOr(default: T): T {
      match this
      case Some(v) => v
      case None => default
    }
  }

  /** The outcome of a Java call that returns a value or throws. */
  datatype Result<+T, +E> = Success(value: T) | Failure(error: E)

  /** The outcome of a Java call that returns nothing or throws. */
  datatype Outcome<+E> = Pass | Fail(error: E)
}
