/** The optional value used where the program signals "nothing" by an exception. */
module Wrappers {

  datatype Option<+T> = None | Some(value: T)
}
