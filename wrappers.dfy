/** The optional-value datatype used throughout the model: a missing (NaN)
    table cell, an unparsed dropdown value, a colour range that is not modelled. */
module Wrappers {

  datatype Option<+T> = None | Some(value: T)
}
