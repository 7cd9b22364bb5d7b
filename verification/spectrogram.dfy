/**
  The spectrogram view `Spec`: a graph of the current spectrum over a
  frequency axis warped exponentially across the pixel columns, plus a
  waterfall row whose per-column alpha encodes the same level.

  The float library calls (`powf(2, .)`, `log10`, the complex `norm`) are
  not given bodies here: they travel as a `Math` value, and `Lawful` states
  the few facts about them the mapping relies on.
 */
module Spectrogram {
  import opened Numeric
  import opened Outcome
  import opened Canvas

  datatype Complex = Complex(re: real, im: real)

  const Silence: Complex := Complex(0.0, 0.0)

  /**
    `exp2(t)` for `2f32.powf(t)`, `log10` (only ever applied to positive
    values, hence a partial function) and the magnitude of a complex bin.
   */
  datatype Math = Math(exp2: real -> real, log10: real --> real, norm: Complex -> real)

  ghost predicate Lawful(m: Math)
  {
    && m.exp2(0.0) == 1.0
    && (forall a, b :: a <= b ==> m.exp2(a) <= m.exp2(b))
    && (forall t :: t < 1.0 ==> m.exp2(t) < 2.0)
    && (forall x :: x > 0.0 ==> m.log10.requires(x))
    && (forall c :: m.norm(c) >= 0.0)
    && (forall c :: m.norm(c) == 0.0 <==> c == Silence)
  }

  /** The level standing for a silent bin, in place of `log10(0)`. */
  const Sentinel: real := -1000.0

  /** The tunables of a `Spec` view. */
  datatype Params = Params(dbBias: real, dbRange: real, waterfallSz: real)

  /** `bias` and `range`: the tunables are given in tenths of a `log10` unit. */
  function Calibration(p: Params): (c: (real, real))
    ensures c.0 * 10.0 == p.dbBias
    ensures c.1 * 10.0 == p.dbRange
  {
    (p.dbBias / 10.0, p.dbRange / 10.0)
  }

  /** The rows of the view: the waterfall row and the graph below it. */
  datatype Layout = Layout(waterHeight: nat, waterY: nat, graphHeight: nat)

  predicate ValidLayout(l: Layout)
  {
    l.waterHeight <= U32_MAX && l.waterY <= U32_MAX && l.graphHeight <= U32_MAX
  }

  /** The waterfall's share of the view height, `waterfall_sz * height`, before the cast. */
  function WaterRows(waterfallSz: real, height: nat): real
  {
    waterfallSz * height as real
  }

  /**
    `water_height` is the waterfall fraction of the height cast to `u32`;
    `water_y` and `graph_height` are `u32` differences, so they wrap when
    the waterfall is empty or taller than the view.
   */
  function MakeLayout(height: nat, waterfallSz: real): (l: Layout)
    requires height <= U32_MAX
    ensures ValidLayout(l)
  {
    var wh := CastU32(WaterRows(waterfallSz, height));
    Layout(wh, WrapU32(wh - 1), WrapU32(height - wh))
  }

  /**
    The waterfall row, the graph and the view's height fit together exactly
    when the waterfall height is between 1 and the view height; otherwise
    one of the `u32` subtractions has wrapped.
   */
  lemma LayoutConsistent(height: nat, waterfallSz: real)
    requires height <= U32_MAX
    ensures var l := MakeLayout(height, waterfallSz);
            l.waterY + l.graphHeight + 1 == height <==> 1 <= l.waterHeight <= height
    ensures var l := MakeLayout(height, waterfallSz);
            1 <= l.waterHeight <= height ==>
              l.waterY == l.waterHeight - 1 && l.graphHeight == height - l.waterHeight
  {
  }

  /** A waterfall fraction within `[0, 1]` never makes the waterfall taller than the view. */
  lemma WaterfallFits(height: nat, waterfallSz: real)
    requires height <= U32_MAX
    requires 0.0 <= waterfallSz <= 1.0
    ensures MakeLayout(height, waterfallSz).waterHeight <= height
  {
    ScaleMonotoneRight(waterfallSz, 1.0, height as real);
    TruncMonotone(WaterRows(waterfallSz, height), height as real);
    TruncOfInt(height);
  }

  /** The rectangle cleared before drawing: from row `water_y`, `graph_height + 1` rows tall. */
  function ClearedRect(l: Layout, width: nat): Rect
    requires ValidLayout(l)
  {
    Rect(0, AsI32(l.waterY), width, WrapU32(l.graphHeight + 1))
  }

  /** With a consistent layout the cleared rectangle runs from `water_y` to the last row. */
  lemma ClearedRectReachesBottom(height: nat, waterfallSz: real, width: nat)
    requires height <= I32_MAX
    requires var l := MakeLayout(height, waterfallSz); 1 <= l.waterHeight <= height
    ensures var l := MakeLayout(height, waterfallSz);
            var r := ClearedRect(l, width);
            r.y == l.waterY && r.y + r.h == height
  {
    LayoutConsistent(height, waterfallSz);
  }

  /** The fraction `x / width` of the view's width at pixel column `x`. */
  function Frac(x: nat, width: nat): real
    requires width > 0
  {
    x as real / width as real
  }

  /** The warped position `e` in `[1, 2)` measured in bins: `(e - 1) * len`. */
  function BinPosition(e: real, len: nat): real
  {
    (e - 1.0) * (len as real)
  }

  /** The bin that a warped position `e` selects: `(e - 1) * len / 2` cast to `usize`. */
  function Warp(e: real, len: nat): nat
  {
    CastUsize(BinPosition(e, len) / 2.0)
  }

  /**
    The spectrum bin of pixel column `x`:
    `floor((2^(x / width) - 1) * len / 2)`, cast to `usize`.
   */
  function SpecIdx(m: Math, x: nat, width: nat, len: nat): nat
    requires width > 0
  {
    Warp(m.exp2(Frac(x, width)), len)
  }

  lemma FracMonotone(x: nat, y: nat, width: nat)
    requires width > 0 && x <= y
    ensures Frac(x, width) <= Frac(y, width)
  {
    DivMonotone(x as real, y as real, width as real);
  }

  lemma FracBelowOne(x: nat, width: nat)
    requires x < width
    ensures 0.0 <= Frac(x, width) < 1.0
  {
    DivFraction(x as real, width as real);
  }

  lemma WarpMonotone(e1: real, e2: real, len: nat)
    requires e1 <= e2
    ensures Warp(e1, len) <= Warp(e2, len)
  {
    ScaleMonotoneRight(e1 - 1.0, e2 - 1.0, len as real);
    HalfCastMonotone(BinPosition(e1, len), BinPosition(e2, len));
  }

  lemma WarpBelowHalf(e: real, len: nat)
    requires 1.0 <= e < 2.0
    ensures 2 * Warp(e, len) < len || (len == 0 && Warp(e, len) == 0)
  {
    if len > 0 {
      ScaleBelowOne(e - 1.0, len as real);
      CastHalfBelow(BinPosition(e, len), len);
    } else {
      assert BinPosition(e, len) == 0.0;
    }
  }

  /** The leftmost column reads bin 0. */
  lemma SpecIdxAtZero(m: Math, width: nat, len: nat)
    requires Lawful(m)
    requires width > 0
    ensures SpecIdx(m, 0, width, len) == 0
  {
    assert Frac(0, width) == 0.0;
  }

  /** Columns further right read bins no lower. */
  lemma SpecIdxMonotone(m: Math, x: nat, y: nat, width: nat, len: nat)
    requires Lawful(m)
    requires width > 0
    requires x <= y
    ensures SpecIdx(m, x, width, len) <= SpecIdx(m, y, width, len)
  {
    FracMonotone(x, y, width);
    WarpMonotone(m.exp2(Frac(x, width)), m.exp2(Frac(y, width)), len);
  }

  /**
    Every column of the view reads a bin in the first half of the spectrum,
    the half that is meaningful for a real input.
   */
  lemma SpecIdxFirstHalf(m: Math, x: nat, width: nat, len: nat)
    requires Lawful(m)
    requires x < width
    ensures 2 * SpecIdx(m, x, width, len) < len || (len == 0 && SpecIdx(m, x, width, len) == 0)
  {
    FracBelowOne(x, width);
    assert m.exp2(0.0) <= m.exp2(Frac(x, width)) < 2.0;
    WarpBelowHalf(m.exp2(Frac(x, width)), len);
  }

  /** The level of a bin: `log10` of its magnitude, or the sentinel for a silent bin. */
  function Level(m: Math, c: Complex): (level: real)
    requires Lawful(m)
    ensures c == Silence ==> level == Sentinel
    ensures c != Silence ==> m.norm(c) > 0.0 && level == m.log10(m.norm(c))
  {
    var mag := m.norm(c);
    if mag == 0.0 then Sentinel else m.log10(mag)
  }

  /**
    `specy`: the level offset by `bias`, scaled so that `range` spans the
    graph height (louder is higher, i.e. smaller), cast to `i32` and
    clamped to `[0, graph_height]`.
   */
  function SpecY(level: real, bias: real, range: real, gh: nat): (y: I32)
    requires gh <= U32_MAX
    ensures 0 <= y
    ensures y <= gh
  {
    ClampToGraph(F32DivToI32(Deflection(level, bias, gh), range), gh)
  }

  /** The numerator `(bias + level) * -graph_height` of `specy`. */
  function Deflection(level: real, bias: real, gh: nat): real
  {
    (bias + level) * -(gh as real)
  }

  lemma DeflectionAntitone(l1: real, l2: real, bias: real, gh: nat)
    requires l1 <= l2
    ensures Deflection(l2, bias, gh) <= Deflection(l1, bias, gh)
  {
    ScaleAntitone(bias + l1, bias + l2, gh as real);
  }

  /** `min(raw, graph_height as i32)`, then `max(0)`. */
  function ClampToGraph(raw: I32, gh: nat): (y: I32)
    requires gh <= U32_MAX
    ensures 0 <= y
    ensures gh <= I32_MAX ==> y <= gh
  {
    var capped := if raw > AsI32(gh) then AsI32(gh) else raw;
    if capped < 0 then 0 else capped
  }

  lemma ClampMonotone(a: I32, b: I32, gh: nat)
    requires gh <= U32_MAX
    requires a <= b
    ensures ClampToGraph(a, gh) <= ClampToGraph(b, gh)
  {
  }

  /** Inside the graph the clamp changes nothing; outside it pins to the nearer edge. */
  lemma SpecYClamp(level: real, bias: real, range: real, gh: nat)
    requires gh <= I32_MAX
    ensures var raw := F32DivToI32(Deflection(level, bias, gh), range);
            && (0 <= raw <= gh ==> SpecY(level, bias, range, gh) == raw)
            && (raw < 0 ==> SpecY(level, bias, range, gh) == 0)
            && (raw > gh ==> SpecY(level, bias, range, gh) == gh)
  {
  }

  /**
    With a non-negative range, a louder bin is drawn no lower. At range 0
    the quotient is an infinity of the deflection's sign (or NaN), which
    keeps the order.
   */
  lemma SpecYAntitone(l1: real, l2: real, bias: real, range: real, gh: nat)
    requires gh <= U32_MAX
    requires range >= 0.0
    requires l1 <= l2
    ensures SpecY(l2, bias, range, gh) <= SpecY(l1, bias, range, gh)
  {
    DeflectionAntitone(l1, l2, bias, gh);
    F32DivMonotone(Deflection(l2, bias, gh), Deflection(l1, bias, gh), range);
    ClampMonotone(F32DivToI32(Deflection(l2, bias, gh), range),
                  F32DivToI32(Deflection(l1, bias, gh), range), gh);
  }

  /**
    The waterfall alpha `(1 - specy / graph_height) * 255` cast to `u8`. An
    empty graph gives 0/0, a NaN, which the cast turns into 0.
   */
  function Alpha(specy: int, gh: nat): Byte
  {
    if gh == 0 then 0 else CastU8((1.0 - specy as real / gh as real) * 255.0)
  }

  /** Full opacity at the top of the graph, none at its bottom. */
  lemma AlphaEnds(gh: nat)
    requires gh > 0
    ensures Alpha(0, gh) == 255
    ensures Alpha(gh, gh) == 0
  {
    TruncOfInt(255);
    TruncOfInt(0);
  }

  /** Lower in the graph is never more opaque. */
  lemma AlphaAntitone(y1: int, y2: int, gh: nat)
    requires y1 <= y2
    ensures Alpha(y2, gh) <= Alpha(y1, gh)
  {
    if gh > 0 {
      DivMonotone(y1 as real, y2 as real, gh as real);
      ScaleMonotoneRight(1.0 - y2 as real / gh as real, 1.0 - y1 as real / gh as real, 255.0);
      SaturatingCastMonotone((1.0 - y2 as real / gh as real) * 255.0,
                             (1.0 - y1 as real / gh as real) * 255.0, 0, U8_MAX);
    }
  }

  /** What the loop body of `Spec::render` computes for one column. */
  datatype Column = Column(specIdx: nat, level: real, specY: I32, alpha: Byte)

  /**
    One column of one channel. It aborts exactly on an empty spectrum;
    otherwise it reads a bin of the first half, a silent bin sits at the
    sentinel level, and `specy` lies inside the graph.
   */
  function ColumnAt(m: Math, x: nat, width: nat, spec: seq<Complex>,
                    bias: real, range: real, gh: nat): (r: Result<Column>)
    requires Lawful(m)
    requires x < width
    requires gh <= U32_MAX
    ensures r.Err? <==> |spec| == 0
    ensures r.Ok? ==> r.value.specIdx == SpecIdx(m, x, width, |spec|) && 2 * r.value.specIdx < |spec|
    ensures r.Ok? ==> r.value.level == Level(m, spec[r.value.specIdx])
    ensures r.Ok? && spec[r.value.specIdx] == Silence ==> r.value.level == Sentinel
    ensures r.Ok? ==> r.value.specY == SpecY(r.value.level, bias, range, gh) && 0 <= r.value.specY <= gh
    ensures r.Ok? ==> r.value.alpha == Alpha(r.value.specY, gh)
  {
    SpecIdxFirstHalf(m, x, width, |spec|);
    var idx := SpecIdx(m, x, width, |spec|);
    if idx >= |spec| then Err(IndexOutOfBounds)
    else
      var level := Level(m, spec[idx]);
      var y := SpecY(level, bias, range, gh);
      Ok(Column(idx, level, y, Alpha(y, gh)))
  }

  /** A column aborts only on an empty spectrum. */
  lemma ColumnAbortsOnlyWhenEmpty(m: Math, x: nat, width: nat, spec: seq<Complex>,
                                  bias: real, range: real, gh: nat)
    requires Lawful(m)
    requires x < width
    requires gh <= U32_MAX
    ensures ColumnAt(m, x, width, spec, bias, range, gh).Err? <==> |spec| == 0
  {
    SpecIdxFirstHalf(m, x, width, |spec|);
  }

  /** A silent spectrum puts every column at the sentinel level. */
  lemma SilenceIsSentinel(m: Math, x: nat, width: nat, spec: seq<Complex>,
                          bias: real, range: real, gh: nat)
    requires Lawful(m)
    requires x < width
    requires gh <= U32_MAX
    requires forall i :: 0 <= i < |spec| ==> spec[i] == Silence
    ensures var r := ColumnAt(m, x, width, spec, bias, range, gh);
            r.Ok? ==> r.value.level == Sentinel
  {
  }

  /**
    The columns `0 .. n` of one channel, left to right, stopping at the first
    column that aborts.
   */
  function Columns(m: Math, n: nat, width: nat, spec: seq<Complex>,
                   bias: real, range: real, gh: nat): (r: Result<seq<Column>>)
    requires Lawful(m)
    requires n <= width
    requires gh <= U32_MAX
    ensures r.Ok? <==> forall x :: 0 <= x < n ==> ColumnAt(m, x, width, spec, bias, range, gh).Ok?
    ensures r.Ok? ==> |r.value| == n
    ensures r.Ok? ==> forall x :: 0 <= x < n ==>
              ColumnAt(m, x, width, spec, bias, range, gh) == Ok(r.value[x])
  {
    if n == 0 then Ok([])
    else
      var prev := Columns(m, n - 1, width, spec, bias, range, gh);
      if prev.Err? then Err(prev.fault)
      else
        var c := ColumnAt(m, n - 1, width, spec, bias, range, gh);
        if c.Err? then Err(c.fault)
        else Ok(prev.value + [c.value])
  }

  /** The graph's y for a column: `water_height + specy` as `i32`. */
  function GraphY(l: Layout, specY: I32): int
    requires ValidLayout(l)
  {
    WrapI32(AsI32(l.waterHeight) + specY)
  }

  /** With a consistent layout the graph's y stays between the waterfall and the bottom row. */
  lemma GraphYInGraph(height: nat, waterfallSz: real, specY: I32)
    requires height <= I32_MAX
    requires var l := MakeLayout(height, waterfallSz); 1 <= l.waterHeight <= height
    requires 0 <= specY <= MakeLayout(height, waterfallSz).graphHeight
    ensures var l := MakeLayout(height, waterfallSz);
            l.waterHeight <= GraphY(l, specY) <= height
  {
    LayoutConsistent(height, waterfallSz);
  }

  /** The waterfall point of column `x`: the channel colour with the column's alpha, on row `water_y`. */
  function WaterfallDot(col: Column, x: nat, color: Color, l: Layout): Draw
    requires x <= U32_MAX
    requires ValidLayout(l)
  {
    Dot(Point(AsI32(x), AsI32(l.waterY)), Color(color.r, color.g, color.b, col.alpha), BlendAdd)
  }

  /** The graph segment ending at column `x >= 1`, in the channel colour restored after the dot. */
  function GraphLine(cols: seq<Column>, x: nat, color: Color, l: Layout): Draw
    requires 1 <= x < |cols|
    requires x <= U32_MAX
    requires ValidLayout(l)
  {
    Line(Point(AsI32(x - 1), GraphY(l, cols[x - 1].specY)),
         Point(AsI32(x), GraphY(l, cols[x].specY)), color, BlendAdd)
  }

  /** Where the waterfall point of column `x` sits among one channel's commands. */
  function DotIndex(x: nat): nat
  {
    if x == 0 then 0 else 2 * x - 1
  }

  /**
    The commands one channel's loop issues, column by column: the waterfall
    point, then for every column after the first the graph segment from
    the previous column's y.
   */
  function ChannelDraws(cols: seq<Column>, color: Color, l: Layout): (r: seq<Draw>)
    requires |cols| <= U32_MAX
    requires ValidLayout(l)
    ensures |r| == if |cols| == 0 then 0 else 2 * |cols| - 1
    ensures forall x :: 0 <= x < |cols| ==> r[DotIndex(x)] == WaterfallDot(cols[x], x, color, l)
    ensures forall x :: 1 <= x < |cols| ==> r[2 * x] == GraphLine(cols, x, color, l)
  {
    if |cols| == 0 then []
    else
      var x := |cols| - 1;
      var prefix := cols[..x];
      var prev := ChannelDraws(prefix, color, l);
      assert forall k :: 0 <= k < x ==> prefix[k] == cols[k];
      assert forall k :: 1 <= k < x ==> GraphLine(prefix, k, color, l) == GraphLine(cols, k, color, l);
      prev + [WaterfallDot(cols[x], x, color, l)]
      + (if x > 0 then [GraphLine(cols, x, color, l)] else [])
  }

  /** Consecutive graph segments of a channel share their endpoint. */
  lemma GraphConnected(cols: seq<Column>, color: Color, l: Layout)
    requires |cols| <= U32_MAX
    requires ValidLayout(l)
    ensures var r := ChannelDraws(cols, color, l);
            forall x :: 2 <= x < |cols| ==> r[2 * x].from == r[2 * (x - 1)].to
  {
  }

  /**
    The commands of one frame from the columns of both channels: clear the
    rows from `water_y` down, then the left channel's commands, then the
    right channel's.
   */
  function Draws(l: Layout, width: nat, lc: seq<Column>, rc: seq<Column>): (r: seq<Draw>)
    requires ValidLayout(l)
    requires width <= U32_MAX && |lc| == width && |rc| == width
    ensures |r| == 1 + 2 * (if width == 0 then 0 else 2 * width - 1)
    ensures r[0] == FillRect(ClearedRect(l, width), Black, BlendNone)
    ensures forall x :: 0 <= x < width ==> r[1 + DotIndex(x)] == WaterfallDot(lc[x], x, Green, l)
    ensures forall x :: 0 <= x < width ==> r[2 * width + DotIndex(x)] == WaterfallDot(rc[x], x, Blue, l)
  {
    var ld := ChannelDraws(lc, Green, l);
    var rd := ChannelDraws(rc, Blue, l);
    var clear := [FillRect(ClearedRect(l, width), Black, BlendNone)];
    assert width > 0 ==> |ld| == 2 * width - 1;
    forall x | 0 <= x < width
      ensures (clear + ld + rd)[1 + DotIndex(x)] == WaterfallDot(lc[x], x, Green, l)
      ensures (clear + ld + rd)[2 * width + DotIndex(x)] == WaterfallDot(rc[x], x, Blue, l)
    {
      ConcatIndex(clear, ld, rd, DotIndex(x));
      assert ld[DotIndex(x)] == WaterfallDot(lc[x], x, Green, l);
      assert rd[DotIndex(x)] == WaterfallDot(rc[x], x, Blue, l);
    }
    clear + ld + rd
  }

  /**
    `Spec::render` without the waterfall scroll: the columns of the left
    channel in green and of the right channel in blue, computed left to
    right; an out-of-bounds bin aborts the frame.
   */
  function Render(m: Math, p: Params, width: nat, height: nat,
                  left: seq<Complex>, right: seq<Complex>): (r: Result<seq<Draw>>)
    requires Lawful(m)
    requires width <= U32_MAX && height <= U32_MAX
    ensures r.Ok? ==> |r.value| == 1 + 2 * (if width == 0 then 0 else 2 * width - 1)
    ensures r.Ok? ==>
              r.value[0] == FillRect(ClearedRect(MakeLayout(height, p.waterfallSz), width), Black, BlendNone)
  {
    var l := MakeLayout(height, p.waterfallSz);
    var (bias, range) := Calibration(p);
    var lc :- Columns(m, width, width, left, bias, range, l.graphHeight);
    var rc :- Columns(m, width, width, right, bias, range, l.graphHeight);
    Ok(Draws(l, width, lc, rc))
  }

  /** Rendering aborts exactly when there are columns to draw and a channel's spectrum is empty. */
  lemma RenderAbortsOnlyOnEmptySpectrum(m: Math, p: Params, width: nat, height: nat,
                                        left: seq<Complex>, right: seq<Complex>)
    requires Lawful(m)
    requires width <= U32_MAX && height <= U32_MAX
    ensures Render(m, p, width, height, left, right).Err?
            <==> width > 0 && (|left| == 0 || |right| == 0)
  {
    var l := MakeLayout(height, p.waterfallSz);
    var (bias, range) := Calibration(p);
    if width > 0 {
      ColumnAbortsOnlyWhenEmpty(m, 0, width, left, bias, range, l.graphHeight);
      ColumnAbortsOnlyWhenEmpty(m, 0, width, right, bias, range, l.graphHeight);
      forall x | 0 <= x < width
        ensures ColumnAt(m, x, width, left, bias, range, l.graphHeight).Err? <==> |left| == 0
        ensures ColumnAt(m, x, width, right, bias, range, l.graphHeight).Err? <==> |right| == 0
      {
        ColumnAbortsOnlyWhenEmpty(m, x, width, left, bias, range, l.graphHeight);
        ColumnAbortsOnlyWhenEmpty(m, x, width, right, bias, range, l.graphHeight);
      }
    }
  }

  /** What a successful render is made of. */
  lemma RenderParts(m: Math, p: Params, width: nat, height: nat,
                    left: seq<Complex>, right: seq<Complex>)
    requires Lawful(m)
    requires width <= U32_MAX && height <= U32_MAX
    requires width == 0 || (|left| > 0 && |right| > 0)
    ensures Render(m, p, width, height, left, right).Ok?
    ensures var l := MakeLayout(height, p.waterfallSz);
            var c := Calibration(p);
            var lc := Columns(m, width, width, left, c.0, c.1, l.graphHeight);
            var rc := Columns(m, width, width, right, c.0, c.1, l.graphHeight);
            && lc.Ok? && rc.Ok?
            && Render(m, p, width, height, left, right).value == Draws(l, width, lc.value, rc.value)
  {
    RenderAbortsOnlyOnEmptySpectrum(m, p, width, height, left, right);
  }

  /**
    Column `x`'s waterfall point carries the alpha computed from the bin
    that column reads: the left channel's in green among the first half of
    the commands, the right channel's in blue among the second.
   */
  lemma RenderDots(m: Math, p: Params, width: nat, height: nat,
                   left: seq<Complex>, right: seq<Complex>, x: nat)
    requires Lawful(m)
    requires width <= U32_MAX && height <= U32_MAX
    requires x < width
    requires |left| > 0 && |right| > 0
    ensures Render(m, p, width, height, left, right).Ok?
    ensures var l := MakeLayout(height, p.waterfallSz);
            var c := Calibration(p);
            var lc := ColumnAt(m, x, width, left, c.0, c.1, l.graphHeight);
            var rc := ColumnAt(m, x, width, right, c.0, c.1, l.graphHeight);
            var r := Render(m, p, width, height, left, right).value;
            && lc.Ok? && rc.Ok?
            && r[1 + DotIndex(x)] == WaterfallDot(lc.value, x, Green, l)
            && r[2 * width + DotIndex(x)] == WaterfallDot(rc.value, x, Blue, l)
  {
    RenderParts(m, p, width, height, left, right);
  }

  lemma ConcatIndex<T>(a: seq<T>, b: seq<T>, c: seq<T>, i: nat)
    requires i < |b| && i < |c|
    ensures (a + b + c)[|a| + i] == b[i]
    ensures (a + b + c)[|a| + |b| + i] == c[i]
  {
  }
}
