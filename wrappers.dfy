/** The optional value used wherever the C++ code has a nullable pointer or a
    "not found" sentinel. */
module Wrappers {

  datatype Option<+T> = None | Some(value: T)

}
