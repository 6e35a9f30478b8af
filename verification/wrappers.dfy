/** Failure-compatible wrapper types shared by every module of the model. */
module Wrappers {

  /** An optional value, standing in for Python's `None`. */
  datatype Option<+T> = None | Some(value: T)

  /** Either a computed value or the error that the source raises instead. */
  datatype Result<+T, +E> = Success(value: T) | Failure(error: E) {
    predicate IsFailure() {
      Failure?
    }

    function PropagateFailure<U>(): Result<U, E>
      requires Failure?
    {
      Failure(error)
    }

    function Extract(): T
      requires Success?
    {
      value
    }
  }
}
