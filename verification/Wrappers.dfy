/** Optional values and results that may carry an error. */
module Wrappers {

  datatype Option<+T> = None | Some(value: T)

  /** A value, or the reason why the operation threw instead. */
  datatype Result<+T, +E> = Success(value: T) | Failure(error: E) {
    predicate IsFailure() {
      Failure?
    }

    function PropagateFailure<U>(): Result<U, E>
      requires Failure?
    {
      Failure(error)
    }

    function Extract(): T
      requires Success?
    {
      value
    }
  }
}
