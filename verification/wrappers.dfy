/** Option and Result, the two failure-carrying shapes the strategy model uses:
    Option<real> stands for a float column cell that may be NaN, Result for a
    computation that the Python code would turn into an exception, inf or NaN. */
module Wrappers {

  /** A cell that is either a number or missing (NaN in the data frame). */
  datatype Option<+T> = None | Some(value: T) {

    /** The value, or `default` when missing. */
    function GetOr(default: T): T {
      match this
      case Some(v) => v
      case None => default
    }
  }

  /** The outcome of a computation that can fail with an error of type E. */
  datatype Result<+R, +E> = Success(value: R) | Failure(error: E) {

    predicate IsFailure() {
      Failure?
    }

    function PropagateFailure<U>(): Result<U, E>
      requires Failure?
    {
      Failure(error)
    }

    function Extract(): R
      requires Success?
    {
      value
    }
  }
}
