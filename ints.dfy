/**
 * Fixed-width unsigned integers as Rust has them, and the checked operations
 * the pet program calls. Each checked operation is built from the truncated
 * machine result and a flag for lost information, and is proved to be `None`
 * exactly when the true result is out of range. Rust builds `checked_mul`
 * this way; `checked_sub` and `u8::try_from` compare with the bound first,
 * with the same outcome. The program then `unwrap`s the result, and an
 * `unwrap` of `None` or an arithmetic-overflow panic aborts the transaction.
 */
module Ints {

  const U8_MAX: int := 0xFF
  const U64_MAX: int := 0xFFFF_FFFF_FFFF_FFFF

  /** Rust's `u8`. */
  newtype U8 = x: int | 0 <= x <= 0xFF

  /** Rust's `u64`. */
  newtype U64 = x: int | 0 <= x <= 0xFFFF_FFFF_FFFF_FFFF

  datatype Option<T> = None | Some(value: T)

  /** `x as u8`: the low 8 bits of `x`. */
  function TruncateU8(x: int): U8
  {
    (x % 0x100) as U8
  }

  /** `x as u64`: the low 64 bits of `x`. */
  function TruncateU64(x: int): U64
  {
    (x % 0x1_0000_0000_0000_0000) as U64
  }

  /** `a.overflowing_sub(b)` on `u8`: the wrapped difference, and whether it wrapped. */
  function OverflowingSubU8(a: U8, b: U8): (U8, bool)
  {
    var wrapped := TruncateU8(a as int - b as int);
    (wrapped, wrapped as int != a as int - b as int)
  }

  /** `a.overflowing_sub(b)` on `u64`. */
  function OverflowingSubU64(a: U64, b: U64): (U64, bool)
  {
    var wrapped := TruncateU64(a as int - b as int);
    (wrapped, wrapped as int != a as int - b as int)
  }

  /** `a.overflowing_mul(b)` on `u64`: the low 64 bits of the product, and whether any were lost. */
  function OverflowingMulU64(a: U64, b: U64): (U64, bool)
  {
    var wrapped := TruncateU64(a as int * b as int);
    (wrapped, wrapped as int != a as int * b as int)
  }

  /** `a.checked_sub(b)` on `u8`: defined exactly when the difference is not negative. */
  function CheckedSubU8(a: U8, b: U8): (r: Option<U8>)
    ensures r.Some? <==> b <= a
    ensures r.Some? ==> r.value as int + b as int == a as int
  {
    var (wrapped, overflow) := OverflowingSubU8(a, b);
    if overflow then None else Some(wrapped)
  }

  /** `a.checked_sub(b)` on `u64`: defined exactly when the difference is not negative. */
  function CheckedSubU64(a: U64, b: U64): (r: Option<U64>)
    ensures r.Some? <==> b <= a
    ensures r.Some? ==> r.value as int + b as int == a as int
  {
    var (wrapped, overflow) := OverflowingSubU64(a, b);
    if overflow then None else Some(wrapped)
  }

  /** `a.checked_mul(b)` on `u64`: defined exactly when the true product fits in 64 bits. */
  function CheckedMulU64(a: U64, b: U64): (r: Option<U64>)
    ensures r.Some? <==> a as int * b as int <= U64_MAX
    ensures r.Some? ==> r.value as int == a as int * b as int
  {
    var (wrapped, overflow) := OverflowingMulU64(a, b);
    if overflow then None else Some(wrapped)
  }

  /**
   * `u8::try_from(x)` for a `u64` `x` (what `diff.try_into()` does): the
   * truncating cast, accepted only when it loses nothing.
   */
  function TryIntoU8(x: U64): (r: Option<U8>)
    ensures r.Some? <==> x as int <= U8_MAX
    ensures r.Some? ==> r.value as int == x as int
  {
    var narrowed := TruncateU8(x as int);
    if narrowed as int != x as int then None else Some(narrowed)
  }

  /** The mathematical power `b^e`. */
  function Pow(b: int, e: nat): int
  {
    if e == 0 then 1 else Pow(b, e - 1) * b
  }

  lemma {:induction false} PowNonNegative(b: int, e: nat)
    requires 0 <= b
    ensures 0 <= Pow(b, e)
  {
    if e > 0 {
      PowNonNegative(b, e - 1);
    }
  }

  lemma PowOfZero(e: nat)
    ensures e > 0 ==> Pow(0, e) == 0
  {
  }

  /**
   * The outcome of `base.pow(exp)` on `u64` in a build with overflow checks,
   * where `pow` panics exactly when the true power exceeds `u64::MAX`; `None`
   * stands for that panic. Rust computes the power by repeated squaring; the
   * model reaches the same outcome by repeated checked multiplication.
   */
  function CheckedPowU64(base: U64, exp: nat): (r: Option<U64>)
    ensures r.Some? <==> Pow(base as int, exp) <= U64_MAX
    ensures r.Some? ==> r.value as int == Pow(base as int, exp)
  {
    if exp == 0 then Some(1)
    else
      match CheckedPowU64(base, exp - 1)
      case None =>
        // the smaller power already overflows, so the base is at least 1
        PowNonNegative(base as int, exp - 1);
        PowOfZero(exp - 1);
        None
      case Some(p) =>
        CheckedMulU64(p, base)
  }
}
