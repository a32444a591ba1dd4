/** The optional value used for a drop target that may be missing and a lookup that may fail. */
module Wrappers {

  datatype Option<+T> = None | Some(value: T)
}
