/**
 * Failure-carrying values shared by the whole model. The Python code raises
 * exceptions; here every operation that can raise returns one of these.
 */
module Outcomes {

  /** A value that may be absent. */
  datatype Option<+T> = None | Some(value: T)

  /** Either a value or the error the Python code would have raised. */
  datatype Result<+T, +E> = Ok(value: T) | Err(error: E)
}
