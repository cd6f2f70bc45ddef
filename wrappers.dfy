/** Failure-carrying values shared by the two services. */
module Wrappers {

  /** A value that may be absent (TypeScript `T | undefined` / `T | null`). */
  datatype Option<+T> = None | Some(value: T)

  /** The value of an operation that either returns or throws a typed error. */
  datatype Result<+R, +E> = Success(value: R) | Failure(error: E)

  /** An operation that returns no value of interest, or throws. */
  datatype Outcome<+E> = Pass | Fail(error: E)
}
