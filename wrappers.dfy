/** The optional value used wherever the source allows `null`. */
module Wrappers {
  datatype Option<+T> = None | Some(value: T)
}
