/** Option and Result, the two failure-carrying datatypes the model uses in
    place of Python's None and of raised exceptions. */
module Wrappers {

  /** A Python value that may be None. */
  datatype Option<+T> = None | Some(value: T) {

    /** The value, or `default` when there is none. */
    function GetOr(default: T): T {
      match this
      case Some(v) => v
      case None => default
    }
  }

  /** A computation that returns a value or raises the error `error`. */
  datatype Result<+R, +E> = Success(value: R) | Failure(error: E)
}
