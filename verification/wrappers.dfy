/** Optional values: a React state that may still be `null`, or a storage key that may be absent. */
module Wrappers {

  datatype Option<+T> = None | Some(value: T)
}
