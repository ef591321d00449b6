/** The optional value used wherever the source may return nullptr. */
module Wrappers {
  datatype Option<+T> = None | Some(value: T)
}
