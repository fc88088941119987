/** Failure-compatible wrappers shared by every module of the model. */
module Wrappers {

  /** A value that may be absent: SQL NULL, JavaScript null/undefined, or NaN. */
  datatype Option<+T> = None | Some(value: T) {

    /** The wrapped value, or `default` when absent. */
    function GetOr(default: T): T {
      match this
      case Some(v) => v
      case None => default
    }
  }

  /** The outcome of a store operation that may throw. */
  datatype Result<+R, +E> = Success(value: R) | Failure(error: E)
}
