/** Optional values (Java's nullable references) and results with a typed error. */
module Wrappers {

  /** A value that may be absent; stands for a nullable Java reference. */
  datatype Option<+T> = None | Some(value: T)

  /** Either the value an operation returns or the error it throws. */
  datatype Result<+T, +E> = Ok(value: T) | Err(error: E)
}
