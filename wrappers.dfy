/** The optional value used wherever the source returns `null` or finds nothing. */
module Wrappers {

  datatype Option<+T> = None | Some(value: T)
}
