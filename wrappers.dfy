/** Optional values and results with an error value, shared by the other modules. */
module Wrappers {

  /** Python's `None` (or a missing dictionary key) versus a present value. */
  datatype Option<+T> = None | Some(value: T)

  /** A computation that either returns a value or raises the error `error`. */
  datatype Result<+T, +E> = Ok(value: T) | Err(error: E)
}
