/** The optional value used wherever the program has a nil, a missing map entry or a closed branch. */
module Wrappers {
  datatype Option<+T> = None | Some(value: T)
}
