/** Values that may be absent: null references and exceptions. */
module Wrappers {
  datatype Option<+T> = None | Some(value: T)
}
