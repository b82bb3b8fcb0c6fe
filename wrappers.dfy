/** Option and Result datatypes shared by the modules of this model. */
module Wrappers {

  /** A value that may be absent (PHP's null or false). */
  datatype Option<+T> = None | Some(value: T)

  /** The outcome of an operation that can fail with an error. */
  datatype Result<+R, +E> = Success(value: R) | Failure(error: E)
}
