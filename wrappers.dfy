/** Optional values and results with an error, as the montage scripts use them. */
module Wrappers {

  /** Python's `Optional[T]`: `None` or a value. */
  datatype Option<+T> = None | Some(value: T)

  /** A value, or the error that the Python code raises instead. */
  datatype Result<+R, +E> = Success(value: R) | Failure(error: E)
}
