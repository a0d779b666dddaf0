/** Option and Result values shared by the modules of this model. */
module Wrappers {

  /** A value that may be absent: JavaScript's `null`/`undefined` result. */
  datatype Option<+T> = None | Some(value: T)

  /** A value or the error the source would throw instead of returning. */
  datatype Result<+T, +E> = Success(value: T) | Failure(error: E)
}
