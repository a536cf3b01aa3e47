/** Failure-carrying result types shared by every module of the model. */
module Basics {

  /** A value that may be absent (PHP's `null`). */
  datatype Option<+T> = None | Some(value: T)

  /** The outcome of a computation that may raise an exception identified by its numeric code. */
  datatype Result<+T> = Ok(value: T) | Raised(code: int)
}
