/** Values that may be absent: null pointers, requests not sent, answers not given. */
module Wrappers {

  datatype Option<+T> = None | Some(value: T)
}
