/** The optional value used where the source returns `None` or compares with infinity. */
module Wrappers {

  datatype Option<+T> = None | Some(value: T)
}
