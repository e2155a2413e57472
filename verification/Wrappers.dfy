/** Values that may be absent. */
module Wrappers {
  datatype Option<+T> = Some(v: T) | None
}
