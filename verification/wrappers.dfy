/** Failure-carrying datatypes shared by the other modules. */
module Wrappers {

  /** A value that may be absent. */
  datatype Option<+T> = None | Some(value: T)

  /** The outcome of an operation that either produces a value or fails with an error
      (the model of a raised exception). */
  datatype Result<+R, +E> = Success(value: R) | Failure(error: E)
}
