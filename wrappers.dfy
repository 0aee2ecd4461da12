/** The optional value used wherever the source returns `false` or nothing. */
module Wrappers {
  datatype Option<+T> = None | Some(value: T)
}
