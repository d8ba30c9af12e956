/** Option and Result, the two failure-carrying shapes the rest of the model uses. */
module Wrappers {

  datatype Option<+T> = None | Some(value: T)

  /** The outcome of an operation that may throw: `Err` carries what it throws. */
  datatype Result<+T, +E> = Ok(value: T) | Err(error: E)
}
