/** A value that may be absent: a JavaScript `undefined`/`null` slot. */
module Wrappers {
  datatype Option<+T> = None | Some(value: T)
}
