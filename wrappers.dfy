/** Optional values, used for a storage slot that may hold nothing usable. */
module Wrappers {
  datatype Option<+T> = None | Some(value: T)
}
