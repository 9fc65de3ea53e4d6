/** The optional value used wherever the C code returns "found / not found"
    or a parse either succeeds or fails. */
module Wrappers {
  datatype Option<+T> = None | Some(value: T)
}
