/** An optional value, for the source's failure returns. */
module Wrappers {
  datatype Option<+T> = None | Some(value: T)
}
