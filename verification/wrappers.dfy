/** The Some/None datatype used wherever the source has `null`/`None` or an exception. */
module Wrappers {

  datatype Option<+T> = None | Some(value: T)
}
