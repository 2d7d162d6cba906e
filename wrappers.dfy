/** The optional-value wrapper used throughout the model: `None` stands for
    JavaScript's `undefined` (an absent field, an unset variable). */
module Wrappers {
  datatype Option<+T> = None | Some(value: T)
}
