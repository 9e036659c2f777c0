/** Optional values: a pointer that may be NULL, a loop that may not finish within the observed input. */
module Wrappers {
  datatype Option<+T> = None | Some(value: T)
}
