/** Optional values and results with an error, as used throughout the model. */
module Wrappers {

  /** An absent (`None`, Python's None / SQL NULL) or present value. */
  datatype Option<+T> = None | Some(value: T) {
    function GetOr(default: T): T {
      match this
      case Some(v) => v
      case None => default
    }
  }

  /** The outcome of an operation that may raise. */
  datatype Result<+T, +E> = Success(value: T) | Failure(error: E)
}
