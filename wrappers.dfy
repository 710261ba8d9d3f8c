/** The optional value used wherever the source returns `Option<_>`. */
module Wrappers {
  datatype Option<+T> = None | Some(value: T)
}
