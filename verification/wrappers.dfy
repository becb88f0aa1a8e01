/** Failure-carrying return types used in place of the C++ exceptions and null pointers. */
module Wrappers {

  /** A value or nothing; stands for a pointer that may be null. */
  datatype Option<+T> = None | Some(value: T)

  /** A value or the error the source would have thrown. */
  datatype Result<+T, +E> = Success(value: T) | Failure(error: E)
}
