/** Optional values, used wherever the Go code reports "ok" beside a value. */
module Wrappers {
  datatype Option<+T> = None | Some(value: T)
}
