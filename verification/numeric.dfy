/**
  Machine-integer and float-cast semantics of the Rust source, written out
  over Dafny's unbounded `int` and `real`.

  The model follows a release build: `u32`, `i32` and `usize` arithmetic
  wraps around (two's complement), while slice bounds checks and
  `assert_eq!` still abort; aborts are `Err` values of `Outcome.Result`.
  A float-to-integer `as` cast truncates toward zero and saturates at the
  target type's bounds.
 */
module Numeric {

  const I32_MIN: int := -0x8000_0000
  const I32_MAX: int := 0x7fff_ffff
  const U32_MAX: int := 0xffff_ffff
  const U8_MAX: int := 0xff
  /** `usize` of the 64-bit host build; the GPU kernel's 32-bit `usize` is modelled in `Shader`. */
  const USIZE_MAX: int := 0xffff_ffff_ffff_ffff

  type Byte = n: int | 0 <= n <= U8_MAX

  type I32 = n: int | I32_MIN <= n <= I32_MAX

  /** Truncation toward zero of a real (the rounding of Rust's float `as` casts). */
  function Trunc(x: real): (t: int)
    ensures x >= 0.0 ==> 0 <= t && t as real <= x < t as real + 1.0
    ensures x < 0.0 ==> t <= 0 && t as real - 1.0 < x <= t as real
  {
    if x >= 0.0 then x.Floor else -((-x).Floor)
  }

  lemma TruncMonotone(x: real, y: real)
    requires x <= y
    ensures Trunc(x) <= Trunc(y)
  {
  }

  lemma TruncOfInt(n: int)
    ensures Trunc(n as real) == n
  {
  }

  lemma MulNonneg(a: real, b: real)
    requires a >= 0.0 && b >= 0.0
    ensures a * b >= 0.0
  {
  }

  lemma ScaleMonotone(c: real, a: real, b: real)
    requires c >= 0.0 && a <= b
    ensures c * a <= c * b
  {
    MulNonneg(c, b - a);
    assert c * (b - a) == c * b - c * a;
  }

  lemma ScaleMonotoneRight(a: real, b: real, c: real)
    requires c >= 0.0 && a <= b
    ensures a * c <= b * c
  {
    MulNonneg(c, b - a);
    assert c * (b - a) == b * c - a * c;
  }

  lemma DivMonotone(a: real, b: real, d: real)
    requires d > 0.0 && a <= b
    ensures a / d <= b / d
  {
    assert b / d - a / d == (b - a) / d;
  }

  /** For `0 <= a < d`, the quotient `a / d` lies in `[0, 1)`. */
  lemma DivFraction(a: real, d: real)
    requires 0.0 <= a < d
    ensures 0.0 <= a / d < 1.0
  {
  }

  /** Scaling by a non-positive factor reverses the order. */
  lemma ScaleAntitone(a: real, b: real, c: real)
    requires c >= 0.0 && a <= b
    ensures b * -c <= a * -c
  {
    ScaleMonotoneRight(a, b, c);
    assert b * -c == -(b * c);
    assert a * -c == -(a * c);
  }

  /** A scaling factor below 1 shrinks a positive value. */
  lemma ScaleBelowOne(f: real, c: real)
    requires 0.0 <= f < 1.0 && c > 0.0
    ensures 0.0 <= f * c < c
  {
    MulNonneg(f, c);
    assert c - f * c == (1.0 - f) * c;
    assert (1.0 - f) * c > 0.0;
  }

  /** Scaling a full-scale value by `c >= 0` stays within `[-c, c]`. */
  lemma ScaleWithin(c: real, x: real)
    requires c >= 0.0
    ensures -1.0 <= x ==> -c <= c * x
    ensures x <= 1.0 ==> c * x <= c
  {
    if -1.0 <= x {
      MulNonneg(c, x + 1.0);
      assert c * (x + 1.0) == c * x + c;
    }
    if x <= 1.0 {
      MulNonneg(c, 1.0 - x);
      assert c * (1.0 - x) == c - c * x;
    }
  }

  lemma MulBound(a: nat, b: nat, c: nat)
    requires a <= c && b <= c
    ensures a * b <= c * c
  {
    assert a * b <= a * c <= c * c;
  }

  /** Halving and casting to `usize` preserves the order. */
  lemma HalfCastMonotone(a: real, b: real)
    requires a <= b
    ensures CastUsize(a / 2.0) <= CastUsize(b / 2.0)
  {
    CastUsizeMonotone(a / 2.0, b / 2.0);
  }

  /** Halving a value below `len` and casting it gives an index in the first half of `len`. */
  lemma CastHalfBelow(y: real, len: nat)
    requires 0.0 <= y < len as real
    ensures 2 * SaturatingCast(y / 2.0, 0, USIZE_MAX) < len
  {
    var t := Trunc(y / 2.0);
    assert t as real <= y / 2.0;
  }

  /** A float-to-integer `as` cast into the integer type with bounds `lo..hi`. */
  function SaturatingCast(x: real, lo: int, hi: int): (n: int)
    requires lo <= 0 <= hi
    ensures lo <= n <= hi
    ensures lo <= Trunc(x) <= hi ==> n == Trunc(x)
    ensures Trunc(x) < lo ==> n == lo
    ensures Trunc(x) > hi ==> n == hi
  {
    var t := Trunc(x);
    if t < lo then lo else if t > hi then hi else t
  }

  lemma SaturatingCastMonotone(x: real, y: real, lo: int, hi: int)
    requires lo <= 0 <= hi
    requires x <= y
    ensures SaturatingCast(x, lo, hi) <= SaturatingCast(y, lo, hi)
  {
    TruncMonotone(x, y);
  }

  function CastI32(x: real): int { SaturatingCast(x, I32_MIN, I32_MAX) }

  lemma CastUsizeMonotone(x: real, y: real)
    requires x <= y
    ensures CastUsize(x) <= CastUsize(y)
  {
    SaturatingCastMonotone(x, y, 0, USIZE_MAX);
  }

  lemma CastI32Monotone(x: real, y: real)
    requires x <= y
    ensures CastI32(x) <= CastI32(y)
  {
    SaturatingCastMonotone(x, y, I32_MIN, I32_MAX);
  }

  function CastU32(x: real): int { SaturatingCast(x, 0, U32_MAX) }

  function CastUsize(x: real): int { SaturatingCast(x, 0, USIZE_MAX) }

  function CastU8(x: real): Byte { SaturatingCast(x, 0, U8_MAX) }

  /**
    `(num / den) as i32` for f32 operands, including the IEEE-754 cases of a
    zero divisor: a nonzero numerator gives an infinity that saturates, and
    0/0 gives NaN, which Rust casts to 0. The divisor is taken to be +0.0.
   */
  function F32DivToI32(num: real, den: real): (n: int)
    ensures I32_MIN <= n <= I32_MAX
    ensures den == 0.0 && num == 0.0 ==> n == 0
  {
    if den != 0.0 then CastI32(num / den)
    else if num > 0.0 then I32_MAX
    else if num < 0.0 then I32_MIN
    else 0
  }

  /** For a non-negative divisor the quotient cast is monotone in the numerator. */
  lemma F32DivMonotone(a: real, b: real, den: real)
    requires den >= 0.0 && a <= b
    ensures F32DivToI32(a, den) <= F32DivToI32(b, den)
  {
    if den > 0.0 {
      DivMonotone(a, b, den);
      CastI32Monotone(a / den, b / den);
    }
  }

  /**
    Two's-complement wrap-around into `i32` of the exact result of adding or
    subtracting two `i32` values.
   */
  function WrapI32(n: int): (w: int)
    requires -0x1_0000_0000 <= n <= 0x1_0000_0000
    ensures I32_MIN <= w <= I32_MAX
    ensures w == n || w == n - 0x1_0000_0000 || w == n + 0x1_0000_0000
  {
    if n > I32_MAX then n - 0x1_0000_0000
    else if n < I32_MIN then n + 0x1_0000_0000
    else n
  }

  /** Wrap-around into `u32` of the exact result of adding or subtracting two `u32` values. */
  function WrapU32(n: int): (w: int)
    requires -U32_MAX <= n <= 2 * U32_MAX
    ensures 0 <= w <= U32_MAX
    ensures w == n || w == n - 0x1_0000_0000 || w == n + 0x1_0000_0000
  {
    if n > U32_MAX then n - 0x1_0000_0000
    else if n < 0 then n + 0x1_0000_0000
    else n
  }

  /** Wrap-around into `usize` of the exact result of adding or subtracting two `usize` values. */
  function WrapUsize(n: int): (w: int)
    requires -USIZE_MAX <= n <= 2 * USIZE_MAX
    ensures 0 <= w <= USIZE_MAX
    ensures w == n || w == n - 0x1_0000_0000_0000_0000 || w == n + 0x1_0000_0000_0000_0000
  {
    if n > USIZE_MAX then n - 0x1_0000_0000_0000_0000
    else if n < 0 then n + 0x1_0000_0000_0000_0000
    else n
  }

  /** `n as i32` for a `usize` value `n`: its low 32 bits, reinterpreted. */
  function UsizeAsI32(n: nat): (w: int)
    ensures I32_MIN <= w <= I32_MAX
    ensures n <= I32_MAX ==> w == n
  {
    (n + 0x8000_0000) % 0x1_0000_0000 - 0x8000_0000
  }

  /** `n as i32` for a `u32` value `n`: reinterpretation of the same 32 bits. */
  function AsI32(n: int): (w: int)
    requires 0 <= n <= U32_MAX
    ensures n <= I32_MAX ==> w == n
    ensures n > I32_MAX ==> w == n - 0x1_0000_0000
  {
    if n > I32_MAX then n - 0x1_0000_0000 else n
  }
}

/** Optional values, and the aborts of the source (`assert_eq!`, slice and index bounds checks). */
module Outcome {

  datatype Fault =
    | AssertionFailed   // an `assert_eq!` did not hold
    | IndexOutOfBounds  // a slice index or range outside its slice

  datatype Option<+T> = None | Some(value: T)

  datatype Result<+T> = Ok(value: T) | Err(fault: Fault) {
    predicate IsFailure() { Err? }

    function PropagateFailure<U>(): Result<U>
      requires Err?
    {
      Err(fault)
    }

    function Extract(): T
      requires Ok?
    {
      value
    }
  }
}
