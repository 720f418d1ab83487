/** Optional values: a name the pattern may not yield, an option the store may not hold. */
module Wrappers {
  datatype Option<+T> = None | Some(value: T)
}
