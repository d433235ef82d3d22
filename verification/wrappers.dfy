/** Failure-compatible wrappers standing in for Java's null references and exceptions. */
module Wrappers {

  /** A value that may be absent; `None` models a Java `null`. */
  datatype Option<+T> = None | Some(value: T) {
    function GetOr(default: T): T {
      match this
      case Some(v) => v
      case None => default
    }
  }

  /** The outcome of a computation that may throw: `Err` carries the exception. */
  datatype Result<+R, +E> = Ok(value: R) | Err(error: E)

  /** The outcome of a `void` operation that may throw. */
  datatype Outcome<+E> = Pass | Fail(error: E)
}
