/** The optional value used wherever the editor passes Python's None. */
module Wrappers {
  datatype Option<+T> = None | Some(value: T)
}
