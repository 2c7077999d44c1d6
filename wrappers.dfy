/** Stock optional value, used where the C code returns a null pointer or a
    false status together with out-parameters. */
module Wrappers {
  datatype Option<+T> = None | Some(value: T)
}
