/** Optional values: a JavaScript `null`/`undefined`, an absent header or an I/O call that threw. */
module Wrappers {

  datatype Option<+T> = None | Some(value: T)
}
