/** The usual optional value, used wherever a lookup or a decoding can fail. */
module Wrappers {
  datatype Option<+T> = None | Some(value: T)
}
