/** Outcome types standing for the optional values and the exceptions of the modelled code. */
module Wrappers {
  datatype Option<+T> = None | Some(value: T)

  /** Ok(value) is a normal return, Err(error) a raised exception. */
  datatype Result<+T, +E> = Ok(value: T) | Err(error: E)
}
