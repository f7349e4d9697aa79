/** Option and Result, the two failure-carrying shapes the pipeline needs. */
module Wrappers {

  /** A value that may be absent: a JavaScript `null`/`undefined` result or a missing JSON field. */
  datatype Option<+T> = None | Some(value: T)

  /** The outcome of a step that either produces a value or throws. */
  datatype Result<+T, +E> = Success(value: T) | Failure(error: E)
}
