/** Small value types shared by the other modules. */
module Wrappers {

  /** The conventional Some/None datatype, used where Python returns `None`. */
  datatype Option<+T> = None | Some(value: T)
}

module Bytes {

  /** One element of a Python `bytes` object. */
  type byte = x: int | 0 <= x < 256
}
