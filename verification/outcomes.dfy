/** Failure-compatible wrappers shared by every module of the model: a value
    that may be absent, and a value that may instead be an error. */
module Outcomes {

  datatype Option<+T> = None | Some(value: T)

  datatype Result<+T, +E> = Ok(value: T) | Err(error: E)
}
