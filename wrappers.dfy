/** Optional values and error-carrying results, used for Python's `None`
    and for the exceptions the calendar code lets propagate. */
module Wrappers {

  datatype Option<T> = None | Some(value: T) {
    /** The value, or `default` when absent (Python's `dict.get(key, default)`). */
    function GetOr(default: T): T {
      match this
      case Some(v) => v
      case None => default
    }
  }

  datatype Result<T, E> = Ok(value: T) | Err(error: E)
}
