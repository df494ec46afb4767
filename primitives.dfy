/** Rust's fixed-width integer types used by the model. */
module Primitives {

  /** Rust's `u8`: arithmetic on it must stay within 0..=255 (debug builds
      panic on overflow), which Dafny checks at every operation. */
  newtype u8 = x: int | 0 <= x < 256
}
