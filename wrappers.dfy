/** The optional value used where JavaScript has `undefined`. */
module Wrappers {

  datatype Option<+T> = None | Some(value: T)
}
