/** The optional value used wherever the scripts hold `null` or a missing entry. */
module Wrappers {
  datatype Option<+T> = None | Some(value: T)
}
