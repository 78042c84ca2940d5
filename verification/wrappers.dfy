/** The optional value used wherever the script may see `undefined`. */
module Wrappers {

  datatype Option<+T> = None | Some(value: T)
}
