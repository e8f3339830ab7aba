/** The absent-or-present result of a lookup: Go's `nil` pointer versus a
    pointer to a session. */
module Wrappers {

  datatype Option<+T> = None | Some(value: T)
}
