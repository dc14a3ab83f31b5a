/** Option and Result, and the opaque error of the command-execution layer. */
module Wrappers {

  datatype Option<+T> = None | Some(value: T)

  /** A Go `(value, err)` pair: `Failure` stands for a nil or zero value returned with a non-nil error. */
  datatype Result<+T, +E> = Success(value: T) | Failure(error: E)

  /** An error returned by the remote command execution (transport or exit failure); its content is opaque. */
  datatype Error = Error(message: string)
}
