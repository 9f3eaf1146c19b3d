/** Success-or-error and present-or-absent values, used for every fallible
    conversion in the model (Go's `(T, error)` pairs and nil pointers). */
module Wrappers {

  datatype Option<+T> = None | Some(value: T)

  datatype Result<+T, +E> = Success(value: T) | Failure(error: E)
}
