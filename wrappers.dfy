/** The optional value that stands for Python's `None` and for a file that does not exist. */
module Wrappers {

  datatype Option<T> = None | Some(value: T)
}
