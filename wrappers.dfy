/** Optional values: the outcome of a conversion that may raise ValueError or TypeError. */
module Wrappers {
  datatype Option<+T> = None | Some(value: T)
}
