/** Optional values and error-carrying results, used wherever the source has an
    `undefined`, an optional field, a thrown error or a rejected promise. */
module Wrappers {

  datatype Option<+T> = None | Some(value: T) {
    function GetOr(default: T): T {
      match this
      case Some(v) => v
      case None => default
    }
  }

  datatype Result<+R, +E> = Success(value: R) | Failure(error: E)

  /** Success or failure without a value, for operations that resolve to `undefined`. */
  datatype Outcome<+E> = Pass | Fail(error: E)
}
