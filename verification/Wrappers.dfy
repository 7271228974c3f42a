/** A value that may be absent: Go's nil pointers and NULL columns. */
module Wrappers {
  datatype Option<T> = None | Some(value: T)
}
