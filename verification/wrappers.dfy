/** Option and Result, the failure-carrying datatypes the model uses. */
module Wrappers {

  datatype Option<+T> = None | Some(value: T)

  /** The outcome of an operation that the source lets throw. */
  datatype Result<+R, +E> = Success(value: R) | Failure(error: E)
}
