/** Optional values and success-or-failure results, standing in for Python's
    `None` and for raised exceptions. */
module Wrappers {

  datatype Option<+T> = None | Some(value: T) {

    /** The contained value, or `default` when there is none. */
    function GetOr(default: T): T
    {
      match this
      case Some(v) => v
      case None => default
    }
  }

  datatype Result<+R, +E> = Success(value: R) | Failure(error: E)
}
