/** Machine widths, hashes and the outcome types shared by every module. */
module Common {

  const TWO_8: nat := 0x100
  const TWO_16: nat := 0x1_0000
  const TWO_31: nat := 0x8000_0000
  const TWO_32: nat := 0x1_0000_0000
  const TWO_64: nat := 0x1_0000_0000_0000_0000
  const TWO_128: nat := 0x1_0000_0000_0000_0000_0000_0000_0000_0000
  const TWO_192: nat := 0x1_0000_0000_0000_0000_0000_0000_0000_0000_0000_0000_0000_0000
  const TWO_256: nat := 0x1_0000_0000_0000_0000_0000_0000_0000_0000_0000_0000_0000_0000_0000_0000_0000_0000
  const TWO_320: nat := 0x1_0000_0000_0000_0000_0000_0000_0000_0000_0000_0000_0000_0000_0000_0000_0000_0000_0000_0000_0000_0000

  /** Rust's unsigned machine integers, as bounded naturals. */
  type u8 = x: nat | x < TWO_8
  type u16 = x: nat | x < TWO_16
  type u32 = x: nat | x < TWO_32
  type u64 = x: nat | x < TWO_64

  /** Rust's `i32`. */
  type i32 = x: int | -(TWO_31 as int) <= x < TWO_31

  /** A 32-byte block or transaction identifier. Only its total order and equality matter. */
  type Hash = nat

  /** The all-zero hash (`Hash::default()`). */
  const ZERO_HASH: Hash := 0

  datatype Option<T> = None | Some(value: T)

  datatype Result<T, E> = Ok(value: T) | Err(error: E)

  /** The outcome of a computation that may abort the process (a Rust `panic!`, a failed
      `expect`, `unwrap` or `assert!`, a division by zero). */
  datatype Checked<T> = Done(value: T) | Panic

  function Max(a: int, b: int): int { if a < b then b else a }
}
