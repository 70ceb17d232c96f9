/** The optional value used where the Python code returns `None` or a failed lookup. */
module Wrappers {

  datatype Option<+T> = None | Some(value: T)
}
