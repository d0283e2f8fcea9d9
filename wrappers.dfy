/** The optional value used wherever the parser yields `null` for a missing field. */
module Wrappers {

  datatype Option<+T> = None | Some(value: T)
}
