/** Option and Result, the failure-carrying types used throughout the model. */
module Wrappers {

  datatype Option<+T> = None | Some(value: T)

  /** A PHP call that either returns a value or throws. */
  datatype Result<+R, +E> = Success(value: R) | Failure(error: E)

  /** A PHP call that returns nothing or throws. */
  datatype Outcome<+E> = Pass | Fail(error: E)
}
