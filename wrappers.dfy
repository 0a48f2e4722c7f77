/** Option and Result datatypes shared by the adapter modules. */
module Wrappers {

  datatype Option<+T> = None | Some(value: T)

  /** A value, or the error the Ruby code would raise instead of returning. */
  datatype Result<+T, +E> = Success(value: T) | Failure(error: E)
}
