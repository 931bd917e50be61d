/** Optional values: JavaScript's `null` results become `None`. */
module Wrappers {
  datatype Option<+T> = None | Some(value: T)
}
