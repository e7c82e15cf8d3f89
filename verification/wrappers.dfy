/** Optional values and results, standing in for Python's `None` and for
    error responses such as HTTP 404. */
module Wrappers {

  /** `None` is Python's `None`; `Some(v)` is a present value. */
  datatype Option<+T> = None | Some(value: T)
  {
    /** The value, or `default` when absent (Python's `x or default` on lists). */
    function GetOr(default: T): T
    {
      match this
      case Some(v) => v
      case None => default
    }
  }

  /** Either a value or an error that a caller surfaces. */
  datatype Result<+T, +E> = Success(value: T) | Failure(error: E)
}
