/** Failure-carrying result types shared by the installer model. */
module Wrappers {

  /** An optional value: a parse that may fail, a search that may find nothing. */
  datatype Option<+T> = None | Some(value: T)

  /** The outcome of a step that either produces a value or stops with an error,
      standing in for the installer's raised exceptions. */
  datatype Result<+T, +E> = Ok(value: T) | Err(error: E)
}
