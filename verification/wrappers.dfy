/** Option and Result datatypes shared by the other modules. */
module Wrappers {

  /** A value that may be absent: Python's `None` or a falsy "no answer". */
  datatype Option<+T> = None | Some(value: T)

  /** The outcome of an operation that can raise. */
  datatype Result<+T, +E> = Ok(value: T) | Err(error: E)
}
