/** Optional values (pandas' NaN / NaT / None) and results of operations that can raise. */
module Wrappers {

  datatype Option<T> = None | Some(value: T)

  datatype Result<T, E> = Ok(value: T) | Err(error: E)
}
