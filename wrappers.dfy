/** Option and Result, the two failure-aware return types of the model. */
module Wrappers {

  /** A value that may be absent: the attack's "no adversarial example found". */
  datatype Option<+T> = None | Some(value: T)

  /** A value or the error that stopped its computation. */
  datatype Result<+R, +E> = Success(value: R) | Failure(error: E)
}
