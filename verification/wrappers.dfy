/** The optional value used wherever the store signals "not found" or "not a number". */
module Wrappers {

  datatype Option<+T> = None | Some(value: T)
}
