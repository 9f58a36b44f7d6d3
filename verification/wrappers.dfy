/** Optional values and fallible results, used wherever the Swift code returns an
    optional or stops the program on a failed unwrap or an out-of-range index. */
module Wrappers {

  datatype Option<+T> = None | Some(value: T) {
    function GetOr(default: T): T
    {
      match this
      case Some(v) => v
      case None => default
    }
  }

  datatype Result<+T, +E> = Success(value: T) | Failure(error: E)
}
