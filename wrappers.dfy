/** Small value types shared by the other modules. */
module Wrappers {

  /** A value that may be absent, like a Java reference that may be null. */
  datatype Option<+T> = None | Some(value: T)

  /** The result of a computation that either yields a value or fails with an error. */
  datatype Result<+T, +E> = Success(value: T) | Failure(error: E)

  /** An octet, as written to a Java OutputStream. */
  newtype byte = b: int | 0 <= b < 256
}
