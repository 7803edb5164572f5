/** The one failure-free result shape the other modules share. */
module Wrappers {
  datatype Option<+T> = None | Some(value: T)
}
