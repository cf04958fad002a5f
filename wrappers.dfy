/** Option and Result, used for the oracle tiers that may fail and for the
    errors that the Python code raises. */
module Wrappers {
  datatype Option<+T> = None | Some(value: T)

  datatype Result<+T, +E> = Ok(value: T) | Err(error: E)
}
