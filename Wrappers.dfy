/** A value that may be absent: JavaScript's `null` next to a string. */
module Wrappers {

  datatype Option<+T> = None | Some(value: T)
}
