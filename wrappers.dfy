/** Option and Result types used for the absent values and thrown errors of the system. */
module Wrappers {

  /** `undefined` in the source: a value that may be absent. */
  datatype Option<+T> = None | Some(value: T)

  /** A computation that either returns a value or throws an error. */
  datatype Result<+T, +E> = Ok(value: T) | Err(error: E)
}
