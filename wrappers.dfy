/** Failure-carrying values. The flow code signals errors by throwing
    messages and compares them by their text, so errors here are strings. */
module Wrappers {

  datatype Option<T> = None | Some(value: T)

  /** A value, or the message of the error that was thrown instead. */
  datatype Result<T> = Ok(value: T) | Err(error: string)

  /** Completion without a value, or the message of the error thrown. */
  datatype Outcome = Pass | Fail(error: string)
}
