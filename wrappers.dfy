/** Option for partial results, Outcome for operations that either succeed or raise an exception. */
module Wrappers {

  datatype Option<+T> = None | Some(value: T)

  /** The outcome of an operation that may throw: Pass, or Fail with the exception raised. */
  datatype Outcome<+E> = Pass | Fail(error: E)
}
