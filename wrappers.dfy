/** The optional value used wherever the source returns `null` or a JavaScript
    `NaN` that the model keeps apart from real values. */
module Wrappers {

  datatype Option<+T> = None | Some(value: T)
}
