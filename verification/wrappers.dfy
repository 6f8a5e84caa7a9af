/** Failure-carrying datatypes shared by the other modules. */
module Wrappers {

  /** A value that may be absent; `None` stands for JavaScript's `undefined`,
      `null` or `NaN` where the program tests for them. */
  datatype Option<+T> = None | Some(value: T)

  /** The outcome of a step that can fail with an error of type `E`. */
  datatype Result<+R, +E> = Success(value: R) | Failure(error: E)
}
