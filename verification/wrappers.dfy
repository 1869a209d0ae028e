/** Option and Result types used for refused operations. */
module Wrappers {

  /** A value that may be missing, such as the 0/1 running slot of the registry. */
  datatype Option<+T> = None | Some(value: T)

  /** Either a value or the reason the operation was refused. */
  datatype Result<+T, +E> = Success(value: T) | Failure(error: E)
}
