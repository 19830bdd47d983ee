/** Failure-carrying values shared by the modules of this model. */
module Wrappers {

  /** A value that may be absent (Python's `None`). */
  datatype Option<+T> = None | Some(value: T)

  /** The outcome of an operation whose source raises an exception on some inputs. */
  datatype Result<+T, +E> = Ok(value: T) | Err(error: E)
}
