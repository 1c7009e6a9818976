/** Optional values, for the source's std::optional results and its thrown errors. */
module Wrappers {

  datatype Option<+T> = None | Some(value: T)
}
