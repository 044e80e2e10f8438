/** Optional values: a request-body field that may be absent, a record field
    that may be unset. */
module Wrappers {

  datatype Option<+T> = None | Some(value: T)
}
