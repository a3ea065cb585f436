/** Failure-carrying result types: the model's replacement for thrown `Error`s. */
module Wrappers {

  /** Either a value or an error; a thrown exception becomes `Failure`. */
  datatype Result<+R, +E> = Success(value: R) | Failure(error: E)

  /** The outcome of a check that returns nothing on success (a `void` that may throw). */
  datatype Outcome<+E> = Pass | Fail(error: E)
}
