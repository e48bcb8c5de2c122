/** Optional values and error-or-value results, used wherever the component
    holds `null` or where a JavaScript call would throw. */
module Wrappers {

  datatype Option<+T> = None | Some(value: T)

  datatype Result<+T, +E> = Ok(value: T) | Err(error: E)
}
