/** Optional values: Python's None, a missing query parameter, a SQL NULL. */
module Wrappers {

  datatype Option<+T> = None | Some(value: T)

}
