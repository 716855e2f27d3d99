/** The optional value used for the last logged control state. */
module Wrappers {

  datatype Option<+T> = None | Some(value: T)
}
