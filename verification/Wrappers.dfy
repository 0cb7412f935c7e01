/** Optional values and fallible results used throughout the model. */
module Wrappers {

  datatype Option<+T> = None | Some(value: T) {
    function GetOr(default: T): T {
      match this
      case None => default
      case Some(v) => v
    }
  }

  datatype Result<+T, +E> = Ok(value: T) | Err(error: E)
}
