/** Option and Result, the two failure-carrying shapes used throughout the model. */
module Wrappers {

  datatype Option<+T> = None | Some(value: T)

  /** `Err` stands for a Python exception escaping the modelled code. */
  datatype Result<+T, +E> = Ok(value: T) | Err(error: E)
}
