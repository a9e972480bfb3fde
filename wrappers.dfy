/** Optional values and error results, standing for JavaScript's
    `undefined` and for an exception thrown by a guard. */
module Wrappers {

  /** `None` stands for `undefined` (or `null`). */
  datatype Option<+T> = None | Some(value: T)

  /** `Failure` carries the message of a thrown `Error`. */
  datatype Result<+R, +E> = Success(value: R) | Failure(error: E)
}
