/** Optional values and success/failure results shared by the other modules. */
module Wrappers {

  /** A value that may be missing, such as a size the dump command did not print. */
  datatype Option<+T> = None | Some(value: T)

  /** The outcome of a step that can end the job with a fatal error. */
  datatype Result<+T, +E> = Ok(value: T) | Err(error: E)
}
