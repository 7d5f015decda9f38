/** Values that may be absent, and calls that may raise. */
module Outcomes {

  datatype Option<T> = None | Some(value: T) {
    /** The value, or `default` when absent (Python's `d.get(key, default)`). */
    function GetOr(default: T): T {
      match this
      case Some(v) => v
      case None => default
    }
  }

  /** A Python call that either returns `value` or raises an exception whose `str(e)` is `message`. */
  datatype Attempt<T> = Ok(value: T) | Raised(message: string)
}
