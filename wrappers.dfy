/** The optional value every module uses for "no match" and "not found". */
module Wrappers {
  datatype Option<+T> = None | Some(value: T)
}
