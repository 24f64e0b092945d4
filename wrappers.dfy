/** The optional-value datatype shared by the modules of this model (Rust's `Option`). */
module Wrappers {

  datatype Option<+T> = None | Some(value: T)
}
