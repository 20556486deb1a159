/** Option and Result values used throughout the router model. A Result is either
    the value an operation produces or the error it reports; `:-` propagates the
    first error, the way tinyrouter's `newRoute` returns early on each failed step. */
module Results {

  datatype Option<+T> = None | Some(value: T)

  datatype Result<+T, +E> = Success(value: T) | Failure(error: E) {

    predicate IsFailure() {
      Failure?
    }

    function PropagateFailure<U>(): Result<U, E>
      requires Failure?
    {
      Failure(error)
    }

    function Extract(): T
      requires Success?
    {
      value
    }
  }
}
