/** Optional values and results with an error, shared by the cleaner and the segmenter. */
module Wrappers {

  /** A field that may be missing (pandas NaN / None). */
  datatype Option<+T> = None | Some(value: T)

  /** The outcome of an operation that may raise. */
  datatype Result<+T, +E> = Ok(value: T) | Err(error: E)
}
