/** An optional value: a C pointer that may be NULL, a host query that may fail. */
module Wrappers {
  datatype Option<+T> = None | Some(value: T)
}
