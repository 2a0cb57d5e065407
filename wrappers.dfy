/** Failure-carrying results used in place of the service's exceptions and nulls. */
module Wrappers {

  /** A value that may be missing: a nullable reference or an empty `Optional`. */
  datatype Option<+T> = None | Some(value: T)

  /** Either a value or the error that stopped the computation. */
  datatype Result<+R, +E> = Success(value: R) | Failure(error: E)

  /** The result of an operation that returns nothing on success (a `void` method). */
  datatype Outcome<+E> = Pass | Fail(error: E)
}
