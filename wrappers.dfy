/** Failure-carrying values shared by every module of the model. */
module Wrappers {

  /** A value that may be missing: JavaScript's `undefined`/`null`, or an absent JSON field. */
  datatype Option<+T> = None | Some(value: T)

  /** An operation that either yields a value or throws with a message. */
  datatype Result<+T> = Success(value: T) | Failure(message: string)
}
