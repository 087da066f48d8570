/** Failure-carrying results, used where the C# code throws. */
module Wrappers {

  /** `None` stands for a C# `null` (or an object of another type). */
  datatype Option<+T> = None | Some(value: T)

  /** `Failure` stands for an exception thrown by the modelled code. */
  datatype Result<+R, +E> = Success(value: R) | Failure(error: E)
}
