/** Optional values and results of calls that can raise. */
module Wrappers {

  /** A value that may be absent: a missing dictionary key, an unset variable. */
  datatype Option<+T> = None | Some(value: T) {
    function GetOr(default: T): T {
      match this
      case Some(v) => v
      case None => default
    }
  }

  /** The outcome of a call that either returns a value or raises; the
      failure carries the exception's text (`str(e)`). */
  datatype Result<+R, +E> = Success(value: R) | Failure(error: E)
}
