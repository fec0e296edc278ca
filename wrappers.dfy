/** Optional values and results with an error, as the two programs use them
    (Rust's `Option`, JavaScript's `undefined`, rejected promises). */
module Wrappers {

  datatype Option<+T> = None | Some(value: T)

  datatype Result<+T, +E> = Ok(value: T) | Err(error: E)
}
