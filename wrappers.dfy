/** Option and Result, used for the exceptions and absent values of the timing wheel. */
module Wrappers {

  datatype Option<+T> = None | Some(value: T)

  datatype Result<+T, +X> = Ok(value: T) | Err(error: X)
}
