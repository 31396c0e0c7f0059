/** The optional value used where the source returns nil, a missing entry or an ok flag. */
module Wrappers {
  datatype Option<+T> = None | Some(value: T)
}
