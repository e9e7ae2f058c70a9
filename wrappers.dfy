/** Option and Result: the outcome types the scripts' None values and fatal errors are modelled with. */
module Wrappers {

  /** Python's `None` or a value. */
  datatype Option<+T> = None | Some(value: T)

  /** A computation that either succeeds with a value or stops the script with an error. */
  datatype Result<+T, +E> = Ok(value: T) | Err(error: E)
}
