/** Optional values and results with an error, shared by the pipeline's modules. */
module Wrappers {

  /** An optional value: Go's nil pointer or absent error becomes None. */
  datatype Option<+T> = None | Some(value: T)

  /** A value or the error that replaced it: Go's `(value, err)` pair. */
  datatype Result<+T, +E> = Ok(value: T) | Err(error: E)
}
