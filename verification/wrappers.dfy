/** Optional values and exception-carrying results shared by the other modules. */
module Wrappers {

  datatype Option<+T> = None | Some(value: T) {
    function GetOr(default: T): T {
      match this
      case Some(v) => v
      case None => default
    }
  }

  /** The outcome of a step that either returns a value or raises an exception. */
  datatype Result<+T> = Ok(value: T) | Raised
}
