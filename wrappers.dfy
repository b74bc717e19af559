/** Failure-compatible wrappers shared by the whole model. */
module Wrappers {

  /** An optional value: JavaScript's `undefined` versus a present value. */
  datatype Option<+T> = None | Some(value: T)

  /** The outcome of an operation that may throw: the value, or the thrown error's message. */
  datatype Result<+T> = Success(value: T) | Failure(error: string)
}
