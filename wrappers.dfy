/** The optional value used for the `finished` error (null when absent) and for the abort schedule. */
module Wrappers {

  datatype Option<+T> = None | Some(value: T)
}
