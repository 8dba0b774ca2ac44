/** Option and Result values shared by every module of the model. */
module Wrappers {

  datatype Option<+T> = None | Some(value: T) {
    function GetOr(default: T): T {
      match this
      case Some(v) => v
      case None => default
    }
  }

  /** The outcome of an operation that the source either completes or aborts with an exception. */
  datatype Result<+R, +E> = Success(value: R) | Failure(error: E)
}
