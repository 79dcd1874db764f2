/** An optional value, and the outcome of an operation that may throw. */
module Wrappers {

  datatype Option<+T> = None | Some(value: T) {
    function GetOr(default: T): T {
      match this
      case Some(v) => v
      case None => default
    }
  }

  /** The result of a JavaScript operation that either returns a value or throws. */
  datatype Result<+T> = Success(value: T) | Failure(message: string)
}
