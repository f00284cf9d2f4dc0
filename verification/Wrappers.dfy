// An optional value: the source's `Maybe`, and its null results.
module Wrappers {
  datatype Option<+T> = None | Some(value: T)
}
