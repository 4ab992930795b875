/** A value that may be absent: Ruby's `nil` for an unset optional descriptor field. */
module Wrappers {

  datatype Option<+T> = None | Some(value: T)
}
