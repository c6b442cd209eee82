/** An optional value used across the model. */
module Wrappers {

  /** An optional value: `None` stands for a missing result. */
  datatype Option<T> = None | Some(value: T)
}
