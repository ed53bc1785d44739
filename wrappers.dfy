/** Option, for values the Python code represents with None. */
module Wrappers {

  datatype Option<+T> = None | Some(value: T)
}
