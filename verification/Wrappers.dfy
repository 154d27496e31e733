/** The optional value used where the C and C++ code returns a null pointer, -1 or aborts. */
module Wrappers {
  datatype Option<+T> = None | Some(value: T)
}
