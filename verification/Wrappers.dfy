/** Optional values and error returns shared by every component of the model. */
module Wrappers {

  /** A nullable column or field. */
  datatype Option<+T> = None | Some(value: T) {
    function GetOr(default: T): T {
      match this
      case Some(v) => v
      case None => default
    }
  }

  /** A call that either returns or raises. */
  datatype Result<+R, +E> = Success(value: R) | Failure(error: E)
}
