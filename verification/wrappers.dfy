/** Failure-compatible wrappers shared by the whole model: a value that may be
    absent (a missing dictionary key, a pandas NaN) and a computation that may
    raise (a Python exception). */
module Wrappers {

  datatype Option<+T> = None | Some(value: T) {

    /** The value, or `default` when absent: Python's `d.get(key, default)`. */
    function GetOr(default: T): T {
      match this
      case Some(v) => v
      case None => default
    }
  }

  datatype Result<+R, +E> = Success(value: R) | Failure(error: E)
}
