/** Failure-carrying results shared by the driver, the level search and the metrics. */
module Wrappers {

  /** A value that may be absent. */
  datatype Option<+T> = None | Some(value: T)

  /** Either a computed value or the exception the test bench would raise. */
  datatype Result<+T, +E> = Ok(value: T) | Err(error: E)
}
