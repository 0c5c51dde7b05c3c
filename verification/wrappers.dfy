/** `Option` and `Result`, as the model uses them for absent values and failed operations. */
module Wrappers {

  /** A value that may be absent: a missing file, a failed search, a lookup that ran off the tree. */
  datatype Option<+T> = None | Some(value: T)

  /** The outcome of an operation that can fail with an error value instead of throwing. */
  datatype Result<+T, +E> = Success(value: T) | Failure(error: E)
}
