/** Failure-compatible result types shared by the generator and the repository model. */
module Wrappers {

  /** A value that may be missing, such as the null an SQL aggregate yields over no rows. */
  datatype Option<+T> = None | Some(value: T)

  /** The outcome of an operation that returns a value or raises an error. */
  datatype Result<+R, +E> = Ok(value: R) | Err(error: E)

  /** The outcome of an operation that returns nothing or raises an error. */
  datatype Outcome<+E> = Pass | Fail(error: E)
}
