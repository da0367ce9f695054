/** A value that may be absent: the kernel's null pointers and missing results. */
module Wrappers {
  datatype Option<+T> = None | Some(value: T)
}
