/** Wrappers used throughout the model: an optional value
    (JavaScript's `null`/`undefined` versus a value) and a result that is
    either a value or one of the errors the client raises. */
module Wrappers {

  datatype Option<+T> = None | Some(value: T) {
    /** The value, or `default` when absent. */
    function GetOr(default: T): T {
      match this
      case Some(v) => v
      case None => default
    }
  }

  datatype Result<+R, +E> = Success(value: R) | Failure(error: E)
}
