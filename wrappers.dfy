/** The optional value that every parsing step returns: a match or "no match". */
module Wrappers {
  datatype Option<+T> = None | Some(value: T)
}
