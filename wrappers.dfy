/** Option and Result, the two shapes the finder's answers and failures take. */
module Wrappers {

  /** Ruby's `nil` or a value. */
  datatype Option<+T> = None | Some(value: T)

  /** A raised exception (`Err`) or a normal return (`Ok`). */
  datatype Result<+T, +E> = Ok(value: T) | Err(error: E)
}
