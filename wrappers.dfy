/** Optional values, for lookups that can miss and parses that can fail. */
module Wrappers {

  datatype Option<+T> = None | Some(value: T)
}
