/** Failure-carrying values used across the model. */
module Wrappers {

  datatype Option<+T> = None | Some(value: T)

  /** The outcome of a validator or handler: a value, or the error it raises. */
  datatype Result<+T, +E> = Ok(value: T) | Err(error: E)
}
