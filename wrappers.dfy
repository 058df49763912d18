/** Option and Result datatypes shared by the model. */
module Wrappers {

  datatype Option<+T> = None | Some(value: T)

  /** The outcome of an operation that may raise: the value, or the exception's message. */
  datatype Result<+T, +E> = Success(value: T) | Failure(error: E)
}
