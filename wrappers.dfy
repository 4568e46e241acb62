/** Optional values, used for Go's `(value, error)` and `(value, ok)` returns. */
module Wrappers {

  datatype Option<+T> = None | Some(value: T)
}
