/** Optional values, used wherever the service handles `null` or `undefined`. */
module Wrappers {

  datatype Option<+T> = None | Some(value: T)
}
