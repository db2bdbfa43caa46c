/** Failure-carrying values shared by the whole model. */
module Wrappers {

  datatype Option<+T> = None | Some(value: T)

  /** A value, or the error path of the original (the message is not modelled). */
  datatype Result<+T> = Ok(value: T) | Err
}
