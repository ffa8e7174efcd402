/** Optional values and results with an error path, shared by every module. */
module Wrappers {

  /** A value that may be absent (Python's `None`). */
  datatype Option<+T> = None | Some(value: T) {
    /** The value, or `default` when absent. */
    function GetOr(default: T): T {
      match this
      case Some(v) => v
      case None => default
    }
  }

  /** A value, or the exception a call raises instead of returning. */
  datatype Result<+T, +E> = Ok(value: T) | Err(error: E)
}
