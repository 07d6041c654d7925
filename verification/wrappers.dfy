/** Option for nullable references; Result for thrown exceptions and FluentResults
    results. */
module Wrappers {

  datatype Option<+T> = None | Some(value: T)

  datatype Result<+T, +E> = Success(value: T) | Failure(error: E)
}
