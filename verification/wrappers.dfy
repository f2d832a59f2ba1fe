/** The optional value Rust's `Option` stands for: `nth` and `choose` return
    one, and the source unwraps it. */
module Wrappers {

  datatype Option<+T> = None | Some(value: T)

}
