/** Optional values and results with an error, as used throughout the model. */
module Wrappers {

  /** A value that may be absent, such as a JSON field that was not sent. */
  datatype Option<+T> = None | Some(value: T) {
    predicate IsFailure() { None? }

    function PropagateFailure<U>(): Option<U>
      requires None?
    {
      None
    }

    function Extract(): T
      requires Some?
    {
      value
    }
  }

  /** The value of a computation that may raise instead. */
  datatype Result<+R, +E> = Success(value: R) | Failure(error: E)
}
