/** The optional value used where the program has `None` or a missing key. */
module Wrappers {
  datatype Option<+T> = None | Some(value: T)
}
