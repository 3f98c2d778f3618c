/** Value wrappers: `Option` for a C# reference that may be null,
    `Result` for an operation that returns a value or throws. */
module Wrappers {

  datatype Option<T> = None | Some(value: T)

  datatype Result<T, E> = Success(value: T) | Failure(error: E)
}
