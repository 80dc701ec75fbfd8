/** The conventional Some/None datatype, used for values JavaScript may report as NaN. */
module Wrappers {
  datatype Option<+T> = None | Some(value: T)
}
