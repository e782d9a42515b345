/** Optional values, standing in for the source's nullable fields and optional frame members. */
module Wrappers {

  datatype Option<+T> = None | Some(value: T)
}
