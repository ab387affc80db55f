/** Optional values, used for absent request fields and for drop sequences that fail. */
module Wrappers {

  datatype Option<+T> = None | Some(value: T)
}
