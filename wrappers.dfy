/** Option and Result values used by the rest of the model. */
module Wrappers {

  datatype Option<+T> = None | Some(value: T)

  /** The outcome of an operation that either yields a value or fails with a reason. */
  datatype Result<+R, +E> = Success(value: R) | Failure(error: E)
}
