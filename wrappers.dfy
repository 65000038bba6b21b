/** Python's `None`-or-value, as used for the recorded pixel spans. */
module Wrappers {
  datatype Option<+T> = None | Some(value: T)
}
