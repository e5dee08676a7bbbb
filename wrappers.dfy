/** Optional values and results with an error, as the store and the server use them. */
module Wrappers {

  /** A value that may be absent: a missing dictionary key, a lookup that found nothing. */
  datatype Option<+T> = None | Some(value: T) {

    /** The value, or `default` when absent (Python's `d.get(key, default)`). */
    function GetOr(default: T): T {
      match this
      case Some(v) => v
      case None => default
    }
  }

  /** Either a value or the error that a call raised instead. */
  datatype Result<+T, +E> = Ok(value: T) | Err(error: E)
}
