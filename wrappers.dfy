/** Optional values stand for Python's "value or None". */
module Wrappers {

  datatype Option<+T> = None | Some(value: T) {

    /** The value, or `default` when there is none (Python's `x if x is not None else d`). */
    function GetOr(default: T): T {
      match this
      case Some(v) => v
      case None => default
    }
  }

  /** A value, or the exception Python raises instead. */
  datatype Result<+T> = Success(value: T) | Failure(error: string) {

    /** The value, or None when an exception was raised. */
    function ToOption(): Option<T> {
      if Success? then Some(value) else None
    }
  }
}
