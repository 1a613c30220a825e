/** Option, used wherever the source returns `null`/`undefined` or a key may be missing. */
module Wrappers {
  datatype Option<+T> = None | Some(value: T)
}
