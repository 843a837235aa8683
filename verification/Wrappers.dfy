/** The failure-aware result types shared by the modules of this model. */
module Wrappers {

  /** A value that may be absent: Python's `None`. */
  datatype Option<+T> = None | Some(value: T)

  /** The outcome of an operation that either yields a value or names the reason it refused. */
  datatype Result<+T, +E> = Ok(value: T) | Err(error: E)
}
