/** Optional values: a missing map entry, an empty queue, an exception of the C++ library. */
module Wrappers {
  datatype Option<T> = None | Some(value: T)
}
