/** The optional value the stages use for Rust's `Option`. */
module Wrappers {
  datatype Option<T> = None | Some(value: T)
}
