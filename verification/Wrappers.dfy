/** Optional values: SQL NULLs, JavaScript's undefined, lookups that may miss. */
module Wrappers {
  datatype Option<+T> = None | Some(value: T)

  datatype Result<+T, +E> = Ok(value: T) | Err(error: E)
}
