/** Option and Result, the two failure-carrying datatypes the model uses in
    place of JavaScript's `null` and thrown exceptions. */
module Wrappers {

  /** `None` stands for JavaScript's `null`. */
  datatype Option<+T> = None | Some(value: T)

  /** The value of a call that either returns normally or throws. */
  datatype Result<+T, +E> = Success(value: T) | Failure(error: E)
}
