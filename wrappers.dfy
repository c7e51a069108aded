/** Optional values and success/failure results, as used throughout the model. */
module Wrappers {

  /** A value that may be absent (`undefined`/`null` on the TypeScript side). */
  datatype Option<+T> = None | Some(value: T)

  /** The outcome of an operation that either yields a value or throws an error. */
  datatype Result<+R, +E> = Success(value: R) | Failure(error: E)
}
