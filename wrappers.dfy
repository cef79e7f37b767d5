/** Failure-compatible Option and Result types, used for the error paths the
    Java code signals with exceptions or System.exit. */
module Wrappers {

  datatype Option<+T> = None | Some(value: T)

  datatype Result<+T, +E> = Ok(value: T) | Err(error: E)
}
