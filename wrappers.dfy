/** Optional values: a database cell that may be NULL. */
module Wrappers {

  datatype Option<+T> = None | Some(value: T)
}
