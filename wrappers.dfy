/** The optional value used throughout the model: `None` stands for JavaScript's
    `undefined` (a failed `find`, an out-of-range index) and for `NaN` (a failed parse). */
module Wrappers {
  datatype Option<+T> = None | Some(value: T)
}
