/** Option and Result, the two failure-carrying shapes used throughout the model. */
module Wrappers {

  /** A value that may be absent: JavaScript's `null`, Python's `None`. */
  datatype Option<+T> = None | Some(value: T)

  /** The outcome of a step that can raise: the value, or the error message it raised with. */
  datatype Result<+T> = Success(value: T) | Failure(error: string)
}
