/** Values that may be absent, used for nullable columns and missing records. */
module Wrappers {
  datatype Option<+T> = None | Some(value: T)
}
