/**
  What the views share: the sample-to-pixel mapping `normalize_centered`
  and the `View` trait's window request.
 */
module View {
  import opened Numeric

  /**
    `normalize_centered(samp, height)`: half the height, minus the sample
    scaled by half the height and cast to `i32`. Sample 0 sits on the
    middle row, +1 on the top row and -1 on the bottom row.
   */
  function NormalizeCentered(samp: real, height: nat): (y: int)
    requires height <= U32_MAX
    ensures I32_MIN <= y <= I32_MAX
  {
    var hh := height / 2;
    WrapI32(AsI32(hh) - CastI32(hh as real * samp))
  }

  /** A sample not below -1, scaled by half the height, casts to no less than `-(height / 2)`. */
  lemma ScaledAtLeast(samp: real, height: nat)
    requires -1.0 <= samp
    ensures -(height / 2) <= CastI32((height / 2) as real * samp)
  {
    ScaleWithin((height / 2) as real, samp);
    TruncMonotone(-((height / 2) as real), (height / 2) as real * samp);
    assert (-(height / 2)) as real == -((height / 2) as real);
    TruncOfInt(-(height / 2));
  }

  /** A sample not above 1, scaled by half the height, casts to no more than `height / 2`. */
  lemma ScaledAtMost(samp: real, height: nat)
    requires height <= I32_MAX
    requires samp <= 1.0
    ensures CastI32((height / 2) as real * samp) <= height / 2
  {
    ScaleWithin((height / 2) as real, samp);
    TruncMonotone((height / 2) as real * samp, (height / 2) as real);
    TruncOfInt(height / 2);
  }

  /** Scaling by half the height and casting preserves the order of samples. */
  lemma ScaledMonotone(a: real, b: real, height: nat)
    requires a <= b
    ensures CastI32((height / 2) as real * a) <= CastI32((height / 2) as real * b)
  {
    ScaleMonotone((height / 2) as real, a, b);
    CastI32Monotone((height / 2) as real * a, (height / 2) as real * b);
  }

  /**
    The final `i32` subtraction of `normalize_centered` does not wrap: the
    scaled sample is not so far below zero that `height / 2` minus it
    passes `i32::MAX`.
   */
  predicate NoWrap(samp: real, height: nat)
  {
    height / 2 - CastI32((height / 2) as real * samp) <= I32_MAX
  }

  /** Where the subtraction does not wrap, the result is the exact difference. */
  lemma Unwrapped(samp: real, height: nat)
    requires height <= U32_MAX
    requires NoWrap(samp, height)
    ensures NormalizeCentered(samp, height)
            == height / 2 - CastI32((height / 2) as real * samp)
  {
  }

  /** For a surface no taller than `i32::MAX`, no sample down to -1 wraps. */
  lemma FullScaleNoWrap(samp: real, height: nat)
    requires height <= I32_MAX
    requires -1.0 <= samp
    ensures NoWrap(samp, height)
  {
    ScaledAtLeast(samp, height);
  }

  /** A silent sample maps to the middle row. */
  lemma CentreAtZero(height: nat)
    requires height <= U32_MAX
    ensures NormalizeCentered(0.0, height) == height / 2
  {
  }

  /** Full scale maps to the top row and negative full scale to the last even row. */
  lemma FullScale(height: nat)
    requires height <= U32_MAX
    ensures NormalizeCentered(1.0, height) == 0
    ensures height <= I32_MAX ==> NormalizeCentered(-1.0, height) == 2 * (height / 2)
  {
    assert (height / 2) as real * 1.0 == (height / 2) as real;
    assert (height / 2) as real * -1.0 == (-(height / 2)) as real;
    TruncOfInt(height / 2);
    TruncOfInt(-(height / 2));
  }

  /**
    Clipped samples down to twice negative full scale do not wrap either,
    on any surface up to a billion rows.
   */
  lemma ClippedNoWrap(samp: real, height: nat)
    requires height <= 1_000_000_000
    requires -2.0 <= samp
    ensures NoWrap(samp, height)
  {
    var hh := height / 2;
    ScaleMonotone(hh as real, -2.0, samp);
    assert hh as real * -2.0 == (-2 * hh) as real;
    TruncMonotone((-2 * hh) as real, hh as real * samp);
    TruncOfInt(-2 * hh);
  }

  /** Samples within full scale land on a row of the surface. */
  lemma InSurface(samp: real, height: nat)
    requires height <= I32_MAX
    requires -1.0 <= samp <= 1.0
    ensures 0 <= NormalizeCentered(samp, height) <= 2 * (height / 2) <= height
  {
    FullScaleNoWrap(samp, height);
    Unwrapped(samp, height);
    ScaledAtLeast(samp, height);
    ScaledAtMost(samp, height);
  }

  /**
    A louder sample is drawn no lower: the mapping is non-increasing,
    clipped samples included, as long as the quieter one does not wrap.
   */
  lemma Antitone(a: real, b: real, height: nat)
    requires height <= U32_MAX
    requires a <= b
    requires NoWrap(a, height)
    ensures NoWrap(b, height)
    ensures NormalizeCentered(b, height) <= NormalizeCentered(a, height)
  {
    ScaledMonotone(a, b, height);
    Unwrapped(a, height);
    Unwrapped(b, height);
  }

  /** The views, each with the output width of its surface. */
  datatype ViewKind =
    | ScopeView(outputWidth: nat)
    | SpecView(outputWidth: nat)
    | VectorView(outputWidth: nat)

  /**
    `requested_window()`: the oscilloscope overrides it with its surface
    width; the other views keep the trait's default of no request.
   */
  function RequestedWindow(v: ViewKind): (n: nat)
    ensures v.ScopeView? ==> n == v.outputWidth
    ensures !v.ScopeView? ==> n == 0
  {
    match v
    case ScopeView(w) => w
    case _ => 0
  }
}
