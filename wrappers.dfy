/** Option and Result, the shapes used for JavaScript's `null`, thrown values and rejected promises. */
module Wrappers {

  /** `None` stands for JavaScript's `null`/`undefined`. */
  datatype Option<+T> = None | Some(value: T)

  /** The outcome of an async operation: a resolved value or a rejection carrying an error message. */
  datatype Result<+R, +E> = Success(value: R) | Failure(error: E)
}
