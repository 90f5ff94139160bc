/** Option and Result datatypes shared by the other modules. */
module Wrappers {

  /** A value that may be absent; stands for JavaScript's `undefined`. */
  datatype Option<+T> = None | Some(value: T)

  /** The outcome of an operation that the source can abort with an exception. */
  datatype Result<+T, +E> = Ok(value: T) | Err(error: E)
}
