/** Failure-carrying values shared by the engine's modules. */
module Wrappers {

  /** A value that may be absent; `None` plays the role of Go's `nil`. */
  datatype Option<+T> = None | Some(value: T)

  /** The outcome of an operation that returns a value or an error. */
  datatype Result<+T, +E> = Success(value: T) | Failure(error: E)

  /** An error as Go reports it: only its message is observable here. */
  datatype Error = Error(message: string)
}
