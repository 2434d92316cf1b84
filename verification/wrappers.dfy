/** The optional value used wherever the source has `null`/`undefined` or can fail. */
module Wrappers {

  datatype Option<+T> = None | Some(value: T)
}
