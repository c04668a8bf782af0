/** The optional result used for the source's raised errors and `None`. */
module Wrappers {
  datatype Option<+T> = None | Some(value: T)
}
