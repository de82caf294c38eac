/** The result type used for every handler's outcome. */
module Wrappers {

  /** Either a value or the error the handler answers with. */
  datatype Result<+T, +E> = Success(value: T) | Failure(error: E)
}
