/** The absent-or-present value used wherever the source writes `T | null`. */
module Wrappers {
  datatype Option<+T> = None | Some(value: T)
}
