/** Option and Result values for the absent values and the failures of the game engine. */
module Wrappers {

  /** A value that may be absent: the nullable `int?` of the source. */
  datatype Option<+T> = None | Some(value: T)

  /** The outcome of an operation that the source lets throw. */
  datatype Result<+T, +E> = Ok(value: T) | Err(error: E)
}
