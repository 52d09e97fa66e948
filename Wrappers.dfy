/** The usual optional value, used wherever the source returns None or raises Empty. */
module Wrappers {

  datatype Option<+T> = None | Some(value: T)
}
