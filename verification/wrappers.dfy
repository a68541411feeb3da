/** Failure-compatible optional values, used where the Python code can raise. */
module Wrappers {

  /** `None` stands for "the computation raised"; `Some(v)` carries its value. */
  datatype Option<+T> = None | Some(value: T)
}
