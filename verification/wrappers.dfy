/** The result of a call that can raise. */
module Wrappers {

  /** `None` stands for "the Python code raises here" (TypeError, KeyError,
      ValueError or IndexError, depending on the operation). */
  datatype Option<+T> = None | Some(value: T)
}
