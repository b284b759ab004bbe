/** Optional values and error results, shared by every module of the model. */
module Wrappers {

  datatype Option<+T> = None | Some(value: T) {
    function GetOr(default: T): T {
      match this
      case Some(v) => v
      case None => default
    }
  }

  /** A computation that either produced a value or threw an error carrying a message. */
  datatype Result<+T, +E> = Ok(value: T) | Err(error: E)
}
