/** Optional values and fallible results, used for the source's `undefined`
    fields and for the run-cancelling checks of `upload()`. */
module Wrappers {

  datatype Option<+T> = None | Some(value: T)

  datatype Result<+T, +E> = Ok(value: T) | Err(error: E)
}
