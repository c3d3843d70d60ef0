/** Option and Result values used across the model: Option stands for a value
    Python may leave out (`None`, a missing key), Result for an operation that
    may raise instead of returning. */
module Wrappers {
  datatype Option<T> = None | Some(value: T)

  datatype Result<T, E> = Success(value: T) | Failure(error: E)
}
