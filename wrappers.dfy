/** Optional values and error-carrying results shared by every stage. */
module Wrappers {

  /** A value that may be missing; a missing table cell or an absent file is None. */
  datatype Option<+T> = None | Some(value: T)

  /** The outcome of a stage that can abort the run with an error. */
  datatype Result<+R, +E> = Ok(value: R) | Err(error: E)
}
