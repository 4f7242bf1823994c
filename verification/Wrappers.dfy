/** A value that may be absent: a null pointer, a failed lookup, an empty slot. */
module Wrappers {
  datatype Option<+T> = None | Some(value: T)
}
