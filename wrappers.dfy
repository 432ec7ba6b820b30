/** Option and Result, the failure-carrying values used throughout the model. */
module Wrappers {

  /** A Java reference that may be `null` (`None`). */
  datatype Option<+T> = None | Some(value: T)

  /** The value of a computation, or the exception it throws. */
  datatype Result<+T, +E> = Ok(value: T) | Err(error: E)
}
