/** The optional value used for a check's failure text: None is Go's nil error. */
module Wrappers {

  datatype Option<+T> = None | Some(value: T)
}
