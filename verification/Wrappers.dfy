/** The two result types the other modules share. */
module Wrappers {

  /** A value that may be absent: a nil reference, or the `ok` of a map lookup. */
  datatype Option<+T> = None | Some(value: T)

  /** A value or the error returned beside it. */
  datatype Result<+T, +E> = Ok(value: T) | Err(error: E)
}
