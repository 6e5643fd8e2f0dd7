/** Optional values and results with an error, used for missing cells and for the
    exceptions the pipeline stages raise. */
module Wrappers {

  datatype Option<T> = None | Some(value: T)

  datatype Result<T, E> = Ok(value: T) | Err(error: E)
}
