/** The usual optional value, standing for Python's `X | None`. */
module Wrappers {

  datatype Option<+T> = None | Some(value: T)
}
