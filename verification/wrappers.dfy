/** Failure-compatible wrappers shared by the whole model. */
module Wrappers {

  /** An optional value; `None` stands for JavaScript's `null`, `undefined` or `NaN`. */
  datatype Option<+T> = None | Some(value: T)

  /** Either a value or the error a request is rejected with. */
  datatype Result<+T, +E> = Success(value: T) | Failure(error: E) {

    predicate IsFailure() {
      Failure?
    }

    function PropagateFailure<U>(): Result<U, E>
      requires Failure?
    {
      Failure(error)
    }

    function Extract(): T
      requires Success?
    {
      value
    }
  }
}
