/** The optional value used for "no such row" and "does not parse". */
module Wrappers {

  datatype Option<+T> = None | Some(value: T)
}
