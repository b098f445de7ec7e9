/** Optional values, for the source's `null`, `undefined` and "not found" results. */
module Wrappers {

  datatype Option<+T> = None | Some(value: T)
}
