/** Optional values and outcomes shared by every module of the model. */
module Wrappers {

  /** A value that may be absent (JavaScript's `undefined`). */
  datatype Option<+T> = None | Some(value: T) {
    function GetOr(default: T): T {
      match this
      case Some(v) => v
      case None => default
    }
  }

  /** Either a value or the error a JavaScript `throw` would raise. */
  datatype Result<+T, +E> = Ok(value: T) | Err(error: E)
}
