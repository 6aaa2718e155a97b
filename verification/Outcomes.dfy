/** Option and Result, the two shapes the source's nil pointers and error returns take. */
module Outcomes {
  datatype Option<+T> = None | Some(value: T)

  datatype Result<+T, +E> = Ok(value: T) | Err(error: E)

  /** The conclusion of a step or a job. */
  datatype Conclusion = Success | Failure | Skipped
}
