/** An optional value: what Go code writes as nil or as a second boolean result. */
module Wrappers {
  datatype Option<+T> = None | Some(value: T)
}
