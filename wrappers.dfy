/** Failure-carrying results shared by the other modules. */
module Wrappers {

  datatype Option<+T> = None | Some(value: T)

  datatype Result<+R, +E> = Success(value: R) | Failure(error: E)

  /** An operation that returns nothing on success and an error value on failure. */
  datatype Outcome<+E> = Pass | Fail(error: E)
}
