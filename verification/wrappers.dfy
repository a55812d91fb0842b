/** The optional value used wherever pandas would produce NaN: a label
    outside a lookup table, the mean of an empty group, a rate over no rows. */
module Wrappers {

  datatype Option<+T> = None | Some(value: T)
}
