/** The optional value used wherever the scripts use `null`/`undefined` or Python uses `None`. */
module Wrappers {

  datatype Option<T> = None | Some(value: T)
}
