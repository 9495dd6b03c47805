/** The optional value that Python functions of the library return as `None`
    or as a real value. */
module Wrappers {

  datatype Option<+T> = None | Some(value: T)

}
