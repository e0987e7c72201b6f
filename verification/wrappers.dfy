/** Optional values: Python's `None`-or-value fields and keyword arguments. */
module Wrappers {

  /** A value that may be absent. */
  datatype Option<+T> = None | Some(value: T)
}
