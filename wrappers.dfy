/** Failure-carrying results for the operations that raise in the original code. */
module Wrappers {

  datatype Option<+T> = None | Some(value: T)

  /** `Err` stands for a raised RuntimeError (or ValueError) whose message names `error`. */
  datatype Result<+T, +E> = Ok(value: T) | Err(error: E)
}
