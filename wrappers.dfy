/** Optional values, used where the source returns `undefined` or throws on a missing entry. */
module Wrappers {

  datatype Option<+T> = None | Some(value: T)
}
