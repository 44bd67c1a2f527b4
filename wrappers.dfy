/** Optional values and results shared by the other modules. */
module Wrappers {
  /** A value that may be absent (`undefined` / `null` in the source). */
  datatype Option<+T> = None | Some(value: T)

  /** The outcome of an operation that may fail with an error value. */
  datatype Result<+T, +E> = Success(value: T) | Failure(error: E)
}
