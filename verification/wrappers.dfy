/** Failure-carrying values shared by every module of the model. */
module Wrappers {

  /** A value that may be absent: a Go `nil` pointer or a `false` ok-flag. */
  datatype Option<+T> = None | Some(value: T)

  /** The outcome of an operation that returns a Go `error`: either a value or
      the error's message. */
  datatype Result<+T> = Ok(value: T) | Err(msg: string)
}
