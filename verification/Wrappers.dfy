/** A value that may be absent: a pointer that may be null, a field that may be unset. */
module Wrappers {
  datatype Option<+T> = None | Some(value: T)
}
