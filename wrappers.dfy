/** Optional values, standing in for Go's nil pointers and failed parses. */
module Wrappers {

  datatype Option<+T> = None | Some(value: T)
}
