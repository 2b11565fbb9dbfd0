/** Option and Result, the shapes in which the model returns Go's nil pointers and error values. */
module Wrappers {

  datatype Option<+T> = None | Some(value: T)

  datatype Result<+T, +E> = Success(value: T) | Failure(error: E)
}
