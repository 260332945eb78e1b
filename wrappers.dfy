/** Optional values and error-carrying results shared by the other modules. */
module Wrappers {

  /** A value that may be absent (a JavaScript `undefined`/`null`). */
  datatype Option<+T> = None | Some(value: T) {

    /** The value, or `default` when absent. */
    function GetOr(default: T): T {
      match this
      case Some(v) => v
      case None => default
    }
  }

  /** The outcome of an operation that may be rejected (a thrown error in the source). */
  datatype Result<+R, +E> = Success(value: R) | Failure(error: E)
}
