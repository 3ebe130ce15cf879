/** Optional values, used for "no notification" and "not saved yet". */
module Wrappers {
  datatype Option<+T> = None | Some(value: T)
}
