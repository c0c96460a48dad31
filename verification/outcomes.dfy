/** Optional values and results shared by every module of the model. */
module Outcomes {

  /** A value that may be absent, as a nullable column or an unset field. */
  datatype Option<+T> = None | Some(value: T)

  /** The outcome of a step that either produces a value or fails with an error. */
  datatype Result<+T, +E> = Ok(value: T) | Err(error: E)
}
