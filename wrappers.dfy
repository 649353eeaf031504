/** Optional values, used where the source works with a value that may be null. */
module Wrappers {
  datatype Option<+T> = None | Some(value: T)
}
