/** Option and Result datatypes used by the queue model. */
module Wrappers {

  /** A value that may be missing, e.g. a number that did not parse. */
  datatype Option<+T> = None | Some(value: T)

  /** The outcome of an operation that either yields a value or fails with an error. */
  datatype Result<+R, +E> = Success(value: R) | Failure(error: E)
}
