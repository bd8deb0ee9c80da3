/** Optional values, standing in for SQL NULL and for lookups that can miss. */
module Wrappers {

  datatype Option<+T> = None | Some(value: T)
}
