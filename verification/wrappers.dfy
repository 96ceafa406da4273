/** Failure-compatible result types shared by every component of the front end. */
module Wrappers {

  /** An optional value: the model of `std::optional` and of nullable pointers. */
  datatype Option<+T> = None | Some(value: T)

  /** Either a value or an error; the model of a call that may throw. */
  datatype Result<+T, +E> = Success(value: T) | Failure(error: E) {
    predicate IsFailure() {
      Failure?
    }

    function PropagateFailure<U>(): Result<U, E>
      requires Failure?
    {
      Failure(error)
    }

    function Extract(): T
      requires Success?
    {
      value
    }
  }
}
