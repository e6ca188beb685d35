/** Optional values: a JavaScript value that may be absent (`undefined`/`null`). */
module Wrappers {
  datatype Option<+T> = None | Some(value: T)
}
