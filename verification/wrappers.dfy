/** Failure-compatible wrappers used throughout the model: `Option` stands in
    for a nullable reference, `Result` for a value or the exception that
    would have been thrown instead. */
module Wrappers {

  /** A possibly-null value: `None` is C#'s `null`. */
  datatype Option<+T> = None | Some(value: T)

  /** Either a value or the error that replaced it. */
  datatype Result<+T, +E> = Success(value: T) | Failure(error: E) {
    predicate IsFailure() {
      Failure?
    }

    function PropagateFailure<U>(): Result<U, E>
      requires Failure?
    {
      Failure(error)
    }

    function Extract(): T
      requires Success?
    {
      value
    }
  }
}
