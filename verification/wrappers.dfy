/** The optional-value and success-or-error wrappers shared by every module of the model. */
module Wrappers {

  /** An optional value: a JavaScript `undefined`/`null`, or a reverted read. */
  datatype Option<+T> = None | Some(value: T)

  /** The outcome of a transition: the new value, or the reason it was rejected. */
  datatype Result<+T, +E> = Success(value: T) | Failure(error: E)
}
