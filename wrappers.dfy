/** Option and Result, the two failure-carrying datatypes used throughout the model. */
module Wrappers {

  datatype Option<+T> = None | Some(value: T)

  /** A successful value or the error the source throws or returns. */
  datatype Result<+R, +E> = Success(value: R) | Failure(error: E)
}
