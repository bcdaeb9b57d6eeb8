/** Option and Result, for the optional `resize` argument and for the error
    `min()` raises on an empty candidate list. */
module Wrappers {

  datatype Option<+T> = None | Some(value: T)

  datatype Result<+T, +E> = Success(value: T) | Failure(error: E)
}
