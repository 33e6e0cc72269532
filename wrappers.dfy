/** Option and Result, the two failure-carrying shapes the client uses. */
module Wrappers {

  /** Python's `None`-or-value. */
  datatype Option<+T> = None | Some(value: T)

  /** A returned value, or the message of a raised exception. */
  datatype Result<+T, +E> = Success(value: T) | Failure(error: E)
}
