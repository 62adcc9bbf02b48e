/** Optional values and error-or-value results, used where the source either
    has no value (a missing POST field) or raises. */
module Wrappers {

  datatype Option<+T> = None | Some(value: T)

  datatype Result<+R, +E> = Ok(value: R) | Err(error: E)
}
