/** Option and Result values used across the model. */
module Wrappers {
  /** A value that may be absent (`nullptr` in the source). */
  datatype Option<+T> = None | Some(value: T)

  /** The outcome of an operation that can throw. */
  datatype Result<+T, +E> = Ok(value: T) | Err(error: E)
}
