/** The optional value used for pandas' "missing" cells and for absent coordinates. */
module Wrappers {
  datatype Option<+T> = None | Some(value: T)
}
