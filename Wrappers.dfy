/** Option and Result, the model's stand-ins for Python's None and for a raised exception. */
module Wrappers {

  /** A value that may be missing: Python's `None` or an absent dictionary key. */
  datatype Option<+T> = None | Some(value: T) {

    /** `d.get(key, default)`: the value when present, the default otherwise. */
    function GetOr(default: T): T {
      match this
      case Some(v) => v
      case None => default
    }
  }

  /** A normal return (`Ok`) or an exception that propagates to the caller (`Err`). */
  datatype Result<+T, +E> = Ok(value: T) | Err(error: E)
}
