/** The optional-value datatype the model uses for JavaScript's `null`. */
module Wrappers {

  /** `None` stands for `null` (or "nothing found"); `Some(v)` for a present value. */
  datatype Option<+T> = None | Some(value: T)
}
