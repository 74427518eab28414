/** Failure-carrying values shared by every module that models an operation
    which can raise an error in the original code. */
module Results {

  /** A value that may be absent (a null reference or `None`). */
  datatype Option<+T> = None | Some(value: T)

  /** The value an operation returns, or the error it raises. */
  datatype Result<+T, +E> = Ok(value: T) | Err(error: E)

  /** The outcome of a check that returns nothing when it passes. */
  datatype Outcome<+E> = Pass | Fail(error: E)
}
