/** Optional values and results of operations that can throw. */
module Wrappers {

  /** `undefined`/`null` versus a present value. */
  datatype Option<+T> = None | Some(value: T)

  /** The outcome of a call that either returns or throws an error. */
  datatype Result<+T, +E> = Ok(value: T) | Err(error: E)
}
