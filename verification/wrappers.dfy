/** Optional values: an index link that may be absent (a null pointer in the C++). */
module Wrappers {

  datatype Option<+T> = None | Some(value: T)
}
