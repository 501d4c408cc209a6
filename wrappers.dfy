/** Optional values and results shared by the other modules. */
module Wrappers {

  /** A value that may be absent (Java `null` or `Optional.empty()`). */
  datatype Option<+T> = None | Some(value: T)

  /** The result of an operation that either returns a value or throws. */
  datatype Result<+T, +E> = Ok(value: T) | Err(error: E)
}
