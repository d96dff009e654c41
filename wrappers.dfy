/** Option and Result, shared by the solver models. */
module Wrappers {

  /** A value that may be missing, as Python's `None` or an empty tuple. */
  datatype Option<+T> = None | Some(value: T)

  /** A computation that either succeeds or raises; `Err` carries what was raised. */
  datatype Result<+T, +E> = Ok(value: T) | Err(error: E)
}
