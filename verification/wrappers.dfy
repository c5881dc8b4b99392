/** Optional values and error-or-value results, the Dafny stand-ins for Go's
    `(value, ok)` and `(value, error)` return pairs. */
module Wrappers {

  datatype Option<+T> = None | Some(value: T)

  datatype Result<+T, +E> = Ok(value: T) | Err(error: E)
}
