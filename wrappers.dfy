/** Optional values and results with an error message, shared by every module. */
module Wrappers {

  datatype Option<+T> = None | Some(value: T)

  /** The outcome of an operation that the source ends by throwing or rejecting with `error`. */
  datatype Result<+T> = Ok(value: T) | Err(error: string)
}
