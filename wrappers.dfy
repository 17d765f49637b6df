/** Optional values and results with an error, as used throughout the model. */
module Wrappers {

  /** A value that may be missing (`undefined` in the source). */
  datatype Option<+T> = None | Some(value: T)

  /** Either a value or the error the source throws instead of returning one. */
  datatype Result<+R, +E> = Success(value: R) | Failure(error: E)
}
