/** The Option and Result types shared by every service model. */
module Wrappers {

  /** A value that may be absent (`undefined` / `null` in the services). */
  datatype Option<+T> = None | Some(value: T) {
    function GetOr(default: T): T {
      match this
      case Some(v) => v
      case None => default
    }
  }

  /** The outcome of a service call: a value, or the exception it throws. */
  datatype Result<+R, +E> = Success(value: R) | Failure(error: E)
}
