/** Optional values and success-or-error results, standing for Java's nullable
    references / Optional and for the exceptions a service call may raise. */
module Outcomes {

  datatype Option<+T> = None | Some(value: T)

  datatype Result<+T, +E> = Ok(value: T) | Err(error: E)

  /** The unit value returned by operations that complete without a result. */
  datatype Unit = Unit
}
