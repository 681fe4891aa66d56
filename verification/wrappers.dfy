/** Option and Result values shared by the whole model. */
module Wrappers {

  /** A value that may be absent: SQL NULL, a missing JSON field, `undefined`. */
  datatype Option<+T> = None | Some(value: T)

  /** The outcome of a storage statement: a value, or the constraint it broke. */
  datatype Result<+T, +E> = Ok(value: T) | Err(error: E)
}
