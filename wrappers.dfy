/** The optional-value datatype shared by the whole model. */
module Wrappers {

  /** `None` stands for Python's `None` (or a missing JSON/form field),
      `Some(v)` for a present value. */
  datatype Option<+T> = None | Some(value: T)
}
