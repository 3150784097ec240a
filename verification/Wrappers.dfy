/** Failure-compatible result and option types used to model the thrown
    exceptions of the generator as ordinary values. */
module Wrappers {

  datatype Option<+T> = None | Some(value: T)

  /** Either a computed value or the error the C# generator would have thrown. */
  datatype Result<+R, +E> = Success(value: R) | Failure(error: E) {

    predicate IsFailure() {
      Failure?
    }

    function PropagateFailure<U>(): Result<U, E>
      requires Failure?
    {
      Failure(error)
    }

    function Extract(): R
      requires Success?
    {
      value
    }
  }
}
