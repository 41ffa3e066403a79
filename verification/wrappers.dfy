/** Optional values, and a value or the error the source would have raised instead. */
module Wrappers {

  datatype Option<+T> = None | Some(value: T)

  /** A value, or the error the source would have raised instead of producing it. */
  datatype Result<+R, +E> = Success(value: R) | Failure(error: E)
}
