/** Failure-carrying values shared by every module of the model. */
module Wrappers {

  /** A value that may be missing: pandas' NaN / NaT / Python's None. */
  datatype Option<+T> = None | Some(value: T)

  /** The outcome of a step that can raise: `Failure` carries the exception's message. */
  datatype Result<+T> = Success(value: T) | Failure(error: string)
}
