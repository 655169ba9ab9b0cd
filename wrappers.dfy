/** Failure-carrying result types shared by every component of the codec. */
module Wrappers {

  /** `Option<T>`: a value that may be absent. */
  datatype Option<+T> = None | Some(value: T)

  /** `Result<T, E>`: a parsed or built value, or the first error detected. */
  datatype Result<+T, +E> = Success(value: T) | Failure(error: E)

  /** `Result<(), E>` as returned by the `write_to_slice` operations. */
  datatype Outcome<+E> = Pass | Fail(error: E)

  /**
   * What an `unsafe` entry point computes when it is called outside its safety
   * contract: the as-written code either yields a defined value or reads past the
   * end of its input, which is undefined behaviour in the source language.
   */
  datatype Checked<+T> = Defined(value: T) | Undefined
}
