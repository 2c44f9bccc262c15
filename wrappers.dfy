/** Optional values, for callback slots that may hold nothing and for lookups
    that may find nothing. */
module Wrappers {
  datatype Option<T> = None | Some(value: T)
}
