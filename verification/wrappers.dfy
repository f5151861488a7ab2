/** The optional result used wherever the modelled code raises an exception
    (an input index out of range, a division by zero). */
module Wrappers {

  datatype Option<+T> = None | Some(value: T)
}
