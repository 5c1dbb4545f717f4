/** Optional values and results with an error, as used by every other module. */
module Wrappers {

  /** A value that may be absent (`undefined` / `null` in the source). */
  datatype Option<T> = None | Some(value: T)

  /** The outcome of an operation that can throw: a value, or the error it throws. */
  datatype Result<T, E> = Success(value: T) | Failure(error: E)
}
