/** Optional values: lookups that can miss and searches that can return npos. */
module Wrappers {
  datatype Option<T> = None | Some(value: T)
}
