/** Failure-carrying wrappers shared by the two pipelines. */
module Wrappers {

  /** A value that may be absent, e.g. the result of a table lookup. */
  datatype Option<+T> = None | Some(value: T)

  /** Either a successful value or the error that aborted the computation. */
  datatype Result<+T, +E> = Ok(value: T) | Err(error: E)
}
