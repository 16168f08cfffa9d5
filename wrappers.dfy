/** Option and Result values shared by the relay and the command-line parser. */
module Wrappers {

  datatype Option<+T> = None | Some(value: T)

  /** A parse either produces a value or fails with the reason the source throws. */
  datatype Result<+R, +E> = Ok(value: R) | Err(error: E)
}
