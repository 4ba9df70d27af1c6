/** A value that may be absent: JavaScript's `null` in the places the program uses it. */
module Wrappers {
  datatype Option<T> = None | Some(value: T)
}
