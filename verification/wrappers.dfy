/** The optional-value datatype used across the model (JavaScript's `undefined`
    and "no match" results). */
module Wrappers {

  datatype Option<+T> = None | Some(value: T)
}
