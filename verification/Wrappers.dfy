/** A value that may be absent: a `unique_ptr` that may have been moved from, a lookup that may
    fail, a call that may block. */
module Wrappers {
  datatype Option<+T> = None | Some(value: T)
}
