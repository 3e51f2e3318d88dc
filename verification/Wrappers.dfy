/** Optional values and results: the model's form of the source's nil pointers and error returns. */
module Wrappers {

  datatype Option<+T> = None | Some(value: T)

  /** An error is known by its text alone: that is all the callers look at. */
  datatype Result<+T> = Ok(value: T) | Err(text: string)
}
