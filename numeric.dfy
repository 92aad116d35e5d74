/** Fixed-width integers of the source and the casts it performs between them. */
module Numeric {

  const TWO_32: int := 0x1_0000_0000
  const TWO_31: int := 0x8000_0000

  type u32 = x: int | 0 <= x < 0x1_0000_0000
  type i32 = x: int | -0x8000_0000 <= x < 0x8000_0000

  /** `x as u32` on an integer: two's-complement wrap-around (Dafny's `%` is Euclidean). */
  function WrapU32(x: int): (r: u32)
    ensures 0 <= x < TWO_32 ==> r == x
    ensures (r - x) % TWO_32 == 0
  {
    x % TWO_32
  }

  /** `x as i32` on a `u32`: the upper half of the range becomes negative. */
  function U32AsI32(x: u32): (r: i32)
    ensures x < TWO_31 ==> r == x
    ensures WrapU32(r) == x
  {
    if x < TWO_31 then x else x - TWO_32
  }

  /** Rust's `v as u32` on an `f64` (taken here as a real): truncation toward zero,
      saturating at both ends of the range. */
  function SatU32(v: real): (r: u32)
    ensures 0.0 <= v < TWO_32 as real ==> r as real <= v < r as real + 1.0
    ensures v < 0.0 ==> r == 0
    ensures v >= TWO_32 as real ==> r == TWO_32 - 1
  {
    if v < 0.0 then 0
    else if v >= (TWO_32 - 1) as real then TWO_32 - 1
    else v.Floor
  }

  /** Rust's `v as i32` on an `f64`: truncation toward zero, saturating at both ends. */
  function SatI32(v: real): (r: i32)
    ensures -(TWO_31 as real) < v < TWO_31 as real && v >= 0.0 ==> r as real <= v < r as real + 1.0
    ensures -(TWO_31 as real) < v < TWO_31 as real && v < 0.0 ==> r as real - 1.0 < v <= r as real
    ensures v >= (TWO_31 - 1) as real ==> r == TWO_31 - 1
    ensures v <= -(TWO_31 as real) ==> r == -TWO_31
  {
    if v >= (TWO_31 - 1) as real then TWO_31 - 1
    else if v <= -(TWO_31 as real) then -TWO_31
    else if v >= 0.0 then v.Floor
    else -((-v).Floor)
  }
}
