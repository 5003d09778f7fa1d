/** Option and Result datatypes shared by the rest of the model. */
module Wrappers {

  /** A value that may be missing: a NaN cell, an absent column, an input that ran out. */
  datatype Option<+T> = None | Some(value: T)

  /** The outcome of an operation that the program lets fail with an exception. */
  datatype Result<+T, +E> = Ok(value: T) | Err(error: E)
}
