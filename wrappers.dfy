/** Option and Result, the two failure-carrying datatypes the rest of the model uses. */
module Wrappers {

  /** An optional value: `None` stands for JavaScript's `undefined`/`null`. */
  datatype Option<+T> = None | Some(value: T)

  /** The outcome of an operation that can throw: `Failure` carries what was thrown. */
  datatype Result<+R, +E> = Success(value: R) | Failure(error: E)
}
