/** Failure-compatible wrappers shared by every module of the model. */
module Wrappers {

  /** A value that may be absent: JavaScript's `undefined`/`null` results. */
  datatype Option<+T> = None | Some(value: T) {

    /** Returns the wrapped value, or `default` when absent. */
    function GetOr(default: T): T {
      match this
      case Some(v) => v
      case None => default
    }
  }

  /** Either a computed value or the error a JavaScript function would throw. */
  datatype Result<+R, +E> = Success(value: R) | Failure(error: E)
}
