/** The optional value used for nullable references and for reads that may find nothing. */
module Wrappers {
  datatype Option<+T> = None | Some(value: T)
}
