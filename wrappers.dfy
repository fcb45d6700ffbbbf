/** Option and Result values shared by the modules of the model. */
module Wrappers {
  datatype Option<T> = None | Some(value: T)

  /** An operation that either yields a value or fails with a message (a thrown exception in the source). */
  datatype Result<T> = Ok(value: T) | Err(error: string)
}
