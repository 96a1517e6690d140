/** An optional value: Python's `None` against a present value. */
module Wrappers {

  datatype Option<+T> = None | Some(value: T)
}
