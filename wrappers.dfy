/** The optional value that stands for a JavaScript `T | null` (or `undefined`). */
module Wrappers {

  datatype Option<+T> = None | Some(value: T)
}
