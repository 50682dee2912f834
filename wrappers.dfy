/** Failure-carrying datatypes shared by the light client and the staking helpers. */
module Wrappers {

  datatype Option<+T> = None | Some(value: T)

  datatype Result<+T, +E> = Success(value: T) | Failure(error: E)

  /** The outcome of a check that returns nothing on success (a Go `error` that may be nil). */
  datatype Outcome<+E> = Pass | Fail(error: E)
}
