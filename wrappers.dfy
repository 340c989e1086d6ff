/** The optional-value datatype used across the model. */
module Wrappers {

  /** `None` stands for "nothing found" (no regex match) or "the call raised" (a parse failure). */
  datatype Option<+T> = None | Some(value: T)
}
