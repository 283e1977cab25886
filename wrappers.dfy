/** The optional value shared by the stepper model and the configuration model. */
module Wrappers {

  /** `None` stands for C's NULL and Python's `None`. */
  datatype Option<T> = None | Some(value: T)
}
