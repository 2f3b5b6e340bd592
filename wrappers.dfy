/** Wrappers used across the model: an optional value
    (the source's nullable fields) and a success-or-error result (the source's
    exceptions). */
module Wrappers {

  datatype Option<+T> = None | Some(value: T)

  datatype Result<+R, +E> = Success(value: R) | Failure(error: E)
}
