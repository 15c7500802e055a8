/** Wrappers shared by the serving and training models. */
module Wrappers {

  /** A value that may be missing. */
  datatype Option<+T> = None | Some(value: T)

  /** The outcome of a step that may fail with an error value. */
  datatype Result<+R, +E> = Success(value: R) | Failure(error: E)
}
