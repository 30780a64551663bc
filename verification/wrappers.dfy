/** Optional values and results shared by the whole model. */
module Wrappers {

  /** An optional field: JavaScript's `undefined` or `null` when absent. */
  datatype Option<+T> = None | Some(value: T)

  /** A value or an error; the error stands for a thrown exception. */
  datatype Result<+R, +E> = Success(value: R) | Failure(error: E)
}
