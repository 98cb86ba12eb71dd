/** The optional-value wrapper used throughout the model for the source's
    `undefined`-able fields and lookups. */
module Wrappers {

  datatype Option<+T> = None | Some(value: T)
}
