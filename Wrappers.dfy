/** Option and Result values for the handler's optional inputs and the
    outcomes of its two foreign calls. */
module Wrappers {

  datatype Option<+T> = None | Some(value: T)

  /** Success carries the value a call returned; Failure the message of
      the exception it threw. */
  datatype Result<+R, +E> = Success(value: R) | Failure(error: E)
}
