/** Optional values and results with an error, the shapes the persistence
    layer and the forms use for "a row or nothing" and "done or refused". */
module Wrappers {

  /** A row that may be missing, or a parse that may have failed. */
  datatype Option<+T> = None | Some(value: T)

  /** An outcome that either carries a value or says why it was refused. */
  datatype Result<+R, +E> = Ok(value: R) | Err(error: E)
}
