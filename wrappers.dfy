/** The optional value used for Go's nil pointers and for "the call failed". */
module Wrappers {

  datatype Option<+T> = None | Some(value: T)
}
