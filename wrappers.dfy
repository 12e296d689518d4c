/** The optional value used for parse results and for fields that may be absent. */
module Wrappers {
  datatype Option<+T> = None | Some(value: T)
}
