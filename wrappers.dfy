/** The optional value returned by the payload parser. */
module Wrappers {

  datatype Option<+T> = None | Some(value: T)
}
