/** Optional values: a field of a decoded payload that may be absent. */
module Wrappers {
  datatype Option<+T> = None | Some(value: T)
}
