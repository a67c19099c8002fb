/** Option and Result: the converter's "may be absent" and "may raise" outcomes. */
module Wrappers {

  datatype Option<+T> = None | Some(value: T)

  /** `Err` stands for a Python exception that aborts the computation. */
  datatype Result<+T, +E> = Ok(value: T) | Err(error: E)
}
