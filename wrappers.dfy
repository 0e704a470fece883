/** Option: a value that may be absent (JavaScript `undefined`/`null`, or a callback not called). */
module Wrappers {
  datatype Option<+T> = None | Some(value: T)
}
