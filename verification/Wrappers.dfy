/** Optional values, for the null pointers of the program. */
module Wrappers {
  datatype Option<+T> = None | Some(value: T)
}
