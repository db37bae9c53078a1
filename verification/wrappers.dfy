/** The optional value used wherever the C++ code returns nullptr or a "not found" marker. */
module Wrappers {

  datatype Option<+T> = None | Some(value: T)
}
