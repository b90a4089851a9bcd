/** The optional values the model uses where the C code keeps a nullable pointer. */
module Wrappers {

  /** `None` stands for a NULL pointer, `Some(v)` for a pointer to `v`. */
  datatype Option<+T> = None | Some(value: T)
}
