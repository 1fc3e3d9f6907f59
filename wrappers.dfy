/** The optional value used for JavaScript's `null`, `NaN` and absent items. */
module Wrappers {

  datatype Option<+T> = None | Some(value: T)
}
