/** Option and Result, the error-carrying values every operation of the model returns. */
module Wrappers {

  datatype Option<+T> = None | Some(value: T)

  datatype Result<+T, +E> = Success(value: T) | Failure(error: E)

  /** The value of a C `void` operation that succeeded. */
  datatype Unit = Unit
}
