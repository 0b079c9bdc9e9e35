/** Small shared vocabulary of the menu model. */
module Common {

  /** Rust's `Option<T>`. */
  datatype Option<+T> = None | Some(value: T)

  /** Rust's `u32`, the type of caller-chosen menu item identifiers. */
  type U32 = x: nat | x < 0x1_0000_0000
}
