/** Optional values: JavaScript's `undefined` / `null` and a missing store record. */
module Wrappers {

  datatype Option<+T> = None | Some(value: T)
}
