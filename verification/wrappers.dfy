/** The optional value used wherever the program tests for "no match" or "no entry". */
module Wrappers {

  datatype Option<+T> = None | Some(value: T)
}
