/** Optional values and results with an error value, used for absent request
    parameters, lookups that may miss, and validation that may fail. */
module Wrappers {

  datatype Option<+T> = None | Some(value: T)

  function OrElse<T>(o: Option<T>, default: T): T
  {
    match o
    case Some(v) => v
    case None => default
  }

  datatype Result<+T, +E> = Ok(value: T) | Err(error: E)
}
