/** The optional-value wrapper used throughout the model (JavaScript `undefined` is `None`). */
module Wrappers {

  datatype Option<+T> = None | Some(value: T)
}
