/** Option, used wherever the scripts have `undefined` or an exception. */
module Wrappers {
  datatype Option<+T> = None | Some(value: T)
}
