/** Values that may be absent, shared by the rest. */
module Wrappers {
  datatype Option<+T> = None | Some(value: T)
}
