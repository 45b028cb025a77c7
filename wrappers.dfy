/** Failure-carrying return values: the model's replacement for thrown exceptions and null. */
module Wrappers {

  /** A value that may be absent; `None` stands for `null` or `undefined`. */
  datatype Option<+T> = None | Some(value: T)

  /** Either the value an operation returns or the error it throws. */
  datatype Result<+T, +E> = Success(value: T) | Failure(error: E)

  /** The outcome of an operation that returns nothing (`Promise<void>`) or throws. */
  datatype Outcome<+E> = Pass | Fail(error: E)
}
