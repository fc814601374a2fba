/** The optional-value wrapper used where the source produces no usable value:
    a percentage whose denominator is zero, or the last quote for a symbol that
    has none. */
module Wrappers {

  datatype Option<+T> = None | Some(value: T)
}
