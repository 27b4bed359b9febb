/** Optional values: Go's `(value, error)` and `nil` results become `None`. */
module Wrappers {

  datatype Option<+T> = None | Some(value: T)

}
