/** Optional values and results with an error, used for the source's
    `undefined`/`null` results and for its rejected promises. */
module Wrappers {

  datatype Option<+T> = None | Some(value: T)

  datatype Result<+T, +E> = Ok(value: T) | Err(error: E)
}
