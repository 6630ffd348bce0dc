/** Failure-carrying results shared by every module of the model. */
module Wrappers {

  /** A value that may be absent (a null pointer, an unset optional, a NaN outcome). */
  datatype Option<+T> = None | Some(value: T)

  /** A computation that either yields a value or raises the given error. */
  datatype Result<+T, +E> = Ok(value: T) | Err(error: E)
}
