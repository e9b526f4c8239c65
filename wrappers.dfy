/** The conventional Option datatype: a decoder either fails or returns a value. */
module Wrappers {

  datatype Option<+T> = None | Some(value: T)
}
