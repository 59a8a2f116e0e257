/** The one failure-free wrapper used by every component: a value that may be absent. */
module Wrappers {
  datatype Option<+T> = None | Some(value: T)
}
