/** An optional value: a port that may or may not carry something this cycle. */
module Wrappers {
  datatype Option<+T> = None | Some(value: T)
}
