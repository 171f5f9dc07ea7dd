/** Option and Result, the failure-carrying values used across the model. */
module Wrappers {

  datatype Option<+T> = None | Some(value: T)

  /** `Err` stands for an exception thrown by the modelled C# code. */
  datatype Result<+T, +E> = Ok(value: T) | Err(error: E)
}
