/** Optional values and outcomes that can fail, used by every module. */
module Wrappers {

  datatype Option<T> = None | Some(value: T)

  /** The value of a Python call, or the exception it raised. */
  datatype Result<T, E> = Ok(value: T) | Err(error: E)
}
