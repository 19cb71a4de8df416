/** Option and Result values used throughout the model. */
module Wrappers {

  /** A value that may be absent (JavaScript `undefined` where the model needs one). */
  datatype Option<+T> = None | Some(value: T)

  /** The outcome of an operation that can fail with an error value. */
  datatype Result<+T, +E> = Ok(value: T) | Err(error: E)
}
