/** The result types shared by every module: an optional column or row, and the outcome of a call
    that can return an error. */
module Wrappers {

  datatype Option<+T> = None | Some(value: T)

  datatype Result<+T, +E> = Success(value: T) | Failure(error: E)
}
