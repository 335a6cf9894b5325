/** Optional values and fallible results, as the source's `Option` and `Result`. */
module Wrappers {

  datatype Option<+T> = None | Some(value: T) {

    function UnwrapOr(default: T): T {
      match this
      case Some(v) => v
      case None => default
    }
  }

  datatype Result<+T, +E> = Success(value: T) | Failure(error: E)
}
