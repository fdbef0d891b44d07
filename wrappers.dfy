/** The optional value used for break-evens that may not be reported. */
module Wrappers {

  datatype Option<+T> = None | Some(value: T)
}
