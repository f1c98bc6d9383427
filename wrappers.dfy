/** Outcomes of the operations of the renderer that can end in an exception. */
module Wrappers {

  /**
   * The exception classes the core throws. The UnsupportedOperationException
   * guard of `compute` is unreachable, so it has no constructor here.
   */
  datatype Error = IllegalArgument | IndexOutOfBounds

  datatype Option<+T> = None | Some(value: T)

  /** The value an operation returns, or the exception it throws. */
  datatype Result<+T> = Ok(value: T) | Err(error: Error)

  /** The outcome of an operation that returns nothing but may throw. */
  datatype Outcome = Pass | Fail(error: Error)
}
