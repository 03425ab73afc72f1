/** Failure-compatible wrappers shared by the modules of this model. */
module Wrappers {

  /** A value that may be absent, e.g. the parent of the initial partition. */
  datatype Option<+T> = None | Some(value: T)

  /** The outcome of an operation that raises on bad input in the source. */
  datatype Result<+T, +E> = Ok(value: T) | Err(error: E)
}
