/** Option, Result and Outcome: the model's stand-ins for C# null and for thrown exceptions. */
module Wrappers {

  datatype Option<+T> = None | Some(value: T)

  /** A computation that either produced a value or threw. */
  datatype Result<+T, +E> = Success(value: T) | Failure(error: E) {
    predicate IsFailure() { Failure? }

    function PropagateFailure<U>(): Result<U, E>
      requires Failure?
    {
      Failure(error)
    }

    function Extract(): T
      requires Success?
    {
      value
    }
  }

  /** A computation run for its effect that either completed or threw. */
  datatype Outcome<+E> = Pass | Fail(error: E)
}
