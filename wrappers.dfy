/** Option and result datatypes shared by the other modules. */
module Wrappers {

  /** A value that may be absent (pandas' missing value, a failed lookup). */
  datatype Option<+T> = None | Some(value: T)

  /** The outcome of an operation that can raise in the program. */
  datatype Result<+T, +E> = Success(value: T) | Failure(error: E)
}
