/** The absent-or-present value used where the agents return `null` or start from `-Infinity`. */
module Wrappers {

  datatype Option<+T> = None | Some(value: T)
}
