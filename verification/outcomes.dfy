/** Failure-carrying wrappers shared by the models of the back end and of the
    document-processing function. */
module Outcomes {

  /** A value that may be missing. */
  datatype Option<+T> = None | Some(value: T)

  /** Either a value or the error that replaced it (a raised exception). */
  datatype Result<+T, +E> = Success(value: T) | Failure(error: E)
}
