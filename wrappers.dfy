/** Optional values: a null object the source may return, an absent JSON key. */
module Wrappers {

  datatype Option<+T> = None | Some(value: T)
}
