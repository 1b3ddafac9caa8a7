/** Optional values and success-or-error results, used for Python's
    "attribute may be absent" checks and for the exceptions the detector can raise. */
module Wrappers {

  datatype Option<+T> = None | Some(value: T)

  /** A failure-compatible result: `:-` propagates the first error, as a raised
      exception aborts the rest of a Python call. */
  datatype Result<+T, +E> = Success(value: T) | Failure(error: E) {

    predicate IsFailure() {
      Failure?
    }

    function PropagateFailure<U>(): Result<U, E>
      requires Failure?
    {
      Failure(error)
    }

    function Extract(): T
      requires Success?
    {
      value
    }
  }
}
