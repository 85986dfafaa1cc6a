/** Failure-compatible wrappers used for Swift optionals and `throws`. */
module Wrappers {

  /** A Swift optional (`T?`). */
  datatype Option<+T> = None | Some(value: T) {

    /** Swift's nil-coalescing `this ?? other`. */
    function Or(other: Option<T>): Option<T> {
      if Some? then this else other
    }
  }

  /** The outcome of a Swift function that `throws`: a value or the error thrown. */
  datatype Result<+R, +E> = Success(value: R) | Failure(error: E) {

    predicate IsFailure() {
      Failure?
    }

    function PropagateFailure<U>(): Result<U, E>
      requires Failure?
    {
      Failure(error)
    }

    function Extract(): R
      requires Success?
    {
      value
    }
  }

  /** The outcome of a throwing Swift function that returns nothing. */
  datatype Outcome<+E> = Pass | Fail(error: E)
}
