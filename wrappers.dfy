/** An optional value: a header that may be absent, a cache lookup that may miss. */
module Wrappers {

  datatype Option<+T> = None | Some(value: T)
}
