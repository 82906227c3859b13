/** Absence and failure, used where the source passes null or throws. */
module Outcomes {

  /** A value that may be missing: the source's `null`. */
  datatype Option<+T> = None | Some(value: T)

  /** Either a value or the exception the source would throw instead. */
  datatype Result<+T, +E> = Ok(value: T) | Err(error: E)
}
