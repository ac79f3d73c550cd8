/** The optional value used wherever the source keeps a field that may still be `undefined`. */
module Wrappers {
  datatype Option<+T> = None | Some(value: T)
}
