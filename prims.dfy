/** The Rust primitives the interpreter is built on: the fixed-width integer
    types it stores, the truncating division and remainder of `i32`, the
    `as u8` cast, and the panics that Rust's checked operations raise.

    Arithmetic overflow follows a debug build: an overflowing `+`, `-`, `*`
    on `i32` or `+` on `usize` panics instead of wrapping. */
module Prims {

  const I32_MIN: int := -0x8000_0000
  const I32_MAX: int := 0x7fff_ffff
  const USIZE_LIMIT: int := 0x1_0000_0000_0000_0000
  const ISIZE_MAX: int := 0x7fff_ffff_ffff_ffff

  type i32 = x: int | I32_MIN <= x <= I32_MAX
  type usize = x: int | 0 <= x < USIZE_LIMIT
  type u8 = x: int | 0 <= x < 256

  predicate InI32(x: int) {
    I32_MIN <= x <= I32_MAX
  }

  /** Why a Rust panic ended the run. */
  datatype Fault =
    | DivideByZero      // `/` or `%` with a zero divisor
    | Overflow          // checked integer arithmetic left its type's range
    | IndexOutOfBounds  // a `Vec` was indexed past its length
    | CapacityOverflow  // `vec![0; n]` with `n` above `isize::MAX`

  /** The value of an operation that may panic. */
  datatype Checked<T> = Ok(value: T) | Panic(fault: Fault)

  datatype Option<T> = None | Some(value: T)

  function Abs(x: int): nat {
    if x < 0 then -x else x
  }

  /** Rust's `/` on signed integers: the quotient rounded toward zero. */
  function TruncDiv(a: int, b: int): int
    requires b != 0
  {
    if (a < 0) == (b < 0) then Abs(a) / Abs(b) else -(Abs(a) / Abs(b))
  }

  /** Rust's `%` on signed integers: the remainder takes the sign of the dividend. */
  function TruncRem(a: int, b: int): int
    requires b != 0
  {
    if a < 0 then -(Abs(a) % Abs(b)) else Abs(a) % Abs(b)
  }

  /** Truncating division and remainder satisfy the division identity, the
      remainder is smaller than the divisor and never has the opposite sign
      of the dividend; these three facts determine both results. */
  lemma TruncDivRem(a: int, b: int)
    requires b != 0
    ensures a == TruncDiv(a, b) * b + TruncRem(a, b)
    ensures Abs(TruncRem(a, b)) < Abs(b)
    ensures TruncRem(a, b) == 0 || (TruncRem(a, b) < 0 <==> a < 0)
  {
    var q, r := Abs(a) / Abs(b), Abs(a) % Abs(b);
    var p := q * Abs(b);
    assert Abs(a) == p + r;
    if b < 0 {
      NegateFactor(q, Abs(b));
      assert q * b == -p;
    } else {
      assert q * b == p;
    }
    if (a < 0) != (b < 0) {
      NegateFactor(q, b);
    }
  }

  lemma NegateFactor(x: int, y: int)
    ensures (-x) * y == -(x * y)
    ensures x * (-y) == -(x * y)
  {
  }

  /** A quotient of naturals by a divisor of at least two is at most half the dividend. */
  lemma QuotientBound(n: nat, d: nat)
    requires d >= 1
    ensures n / d <= n
    ensures d >= 2 ==> 2 * (n / d) <= n
  {
    var q := n / d;
    assert q * d <= n;
    assert q <= q * d;
    if d >= 2 {
      assert 2 * q <= q * d;
    }
  }

  /** For `i32` operands, the truncating quotient leaves the `i32` range only
      for `i32::MIN / -1`, and the remainder never does. */
  lemma DivRemRange(a: i32, b: i32)
    requires b != 0
    ensures InI32(TruncDiv(a, b)) <==> !(a == I32_MIN && b == -1)
    ensures InI32(TruncRem(a, b))
  {
    QuotientBound(Abs(a), Abs(b));
    TruncDivRem(a, b);
    if a == I32_MIN && b == -1 {
      assert Abs(a) / Abs(b) == Abs(a);
    } else if Abs(b) == 1 {
      assert Abs(a) / Abs(b) == Abs(a);
    }
  }

  /** `v as u8`: keeps the low eight bits of the two's-complement value,
      that is, the byte congruent to `v` modulo 256. */
  function LowByte(v: int): (b: u8)
    ensures (v - b) % 256 == 0
    ensures 0 <= v < 256 ==> b == v
  {
    v % 256
  }
}
