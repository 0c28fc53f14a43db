/** Optional values: the Python `None` of the modelled code. */
module Wrappers {
  datatype Option<+T> = None | Some(value: T)
}
