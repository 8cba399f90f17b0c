/** Option and Result values for the engine's optional fields and error paths. */
module Wrappers {

  datatype Option<+T> = None | Some(value: T)

  /** A request either succeeds with a value or fails with an error the caller receives. */
  datatype Result<+R, +E> = Success(value: R) | Failure(error: E)
}
