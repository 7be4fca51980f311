/** Failure-compatible result types shared by every module of the model. */
module Wrappers {

  /** Python's `None` or a present value. */
  datatype Option<+T> = None | Some(value: T)

  /** The value an operation returns, or the exception it raises (by its message). */
  datatype Result<+T, +E> = Ok(value: T) | Err(error: E)
}
