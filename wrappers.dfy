/** The usual optional-value datatype, standing for a C pointer that may be NULL
    where the pointee is a value rather than an object. */
module Wrappers {

  datatype Option<+T> = None | Some(value: T)
}
