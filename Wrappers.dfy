/** The Option and Result datatypes used by the rest of the model. */
module Wrappers {

  /** A value that may be absent (Python's `None`, or a missing dictionary key). */
  datatype Option<+T> = None | Some(value: T)

  /** Either a value or the error that stopped its computation (a raised exception). */
  datatype Result<+T, +E> = Success(value: T) | Failure(error: E)
}
