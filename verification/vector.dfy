/**
  The vectorscope view `Vector`: the previous picture faded by a
  translucent black fill, then one polyline through the points pairing
  each left sample with the right sample at the same index.
 */
module Vectorscope {
  import opened Numeric
  import opened Outcome
  import opened Canvas
  import opened View
  import Scope

  /**
    The point of one sample pair: the left sample mirrored across the width
    (so louder is further right), the right sample down the height.
   */
  function PlotPoint(left: real, right: real, width: nat, height: nat): Point
    requires width <= U32_MAX && height <= U32_MAX
  {
    Point(WrapI32(AsI32(width) - NormalizeCentered(left, width)),
          NormalizeCentered(right, height))
  }

  function Min(a: nat, b: nat): nat
  {
    if a <= b then a else b
  }

  /**
    The loop of `Vector::render` over `left.zip(right)`, carrying the
    previously plotted point: each pair after the first draws a line from
    the previous point to its own.
   */
  function Lines(ls: seq<real>, rs: seq<real>, last: Option<Point>, width: nat, height: nat,
                 color: Color): (r: seq<Draw>)
    requires width <= U32_MAX && height <= U32_MAX
    ensures last.None? ==> |r| == Scope.Segments(Min(|ls|, |rs|))
    ensures last.Some? ==> |r| == Min(|ls|, |rs|)
    ensures forall k :: 0 <= k < |r| ==> r[k].Line? && r[k].color == color && r[k].blend == BlendAdd
    ensures last.None? ==> forall k :: 0 <= k < |r| ==>
              r[k] == Line(PlotPoint(ls[k], rs[k], width, height),
                           PlotPoint(ls[k + 1], rs[k + 1], width, height), color, BlendAdd)
    ensures last.Some? ==> forall k :: 0 <= k < |r| ==>
              r[k] == Line(if k == 0 then last.value else PlotPoint(ls[k - 1], rs[k - 1], width, height),
                           PlotPoint(ls[k], rs[k], width, height), color, BlendAdd)
    decreases |ls|
  {
    if |ls| == 0 || |rs| == 0 then []
    else
      var p := PlotPoint(ls[0], rs[0], width, height);
      var rest := Lines(ls[1..], rs[1..], Some(p), width, height, color);
      assert |rest| == Min(|ls|, |rs|) - 1;
      assert forall k :: 0 <= k < |rest| ==> ls[1..][k] == ls[k + 1] && rs[1..][k] == rs[k + 1];
      if last.Some? then [Line(last.value, p, color, BlendAdd)] + rest else rest
  }

  /**
    `Vector::render`: fill the whole surface with black at alpha
    `fade_rate`, replacing what is there, then trace the sample pairs in
    cyan of the given brightness, blended additively.
   */
  function Render(ls: seq<real>, rs: seq<real>, width: nat, height: nat,
                  fadeRate: Byte, brightness: Byte): (r: seq<Draw>)
    requires width <= U32_MAX && height <= U32_MAX
    ensures |r| == 1 + Scope.Segments(Min(|ls|, |rs|))
    ensures r[0] == FillAll(Color(0, 0, 0, fadeRate), BlendNone)
    ensures forall i :: 1 <= i < |r| ==>
              r[i].Line? && r[i].color == Rgb(0, brightness, brightness) && r[i].blend == BlendAdd
  {
    var trace := Lines(ls, rs, None, width, height, Rgb(0, brightness, brightness));
    [FillAll(Color(0, 0, 0, fadeRate), BlendNone)] + trace
  }

  /** Within full scale the horizontal position never wraps and stays on `[0, width]`. */
  lemma PlotXInSurface(left: real, right: real, width: nat, height: nat)
    requires width <= I32_MAX && height <= U32_MAX
    requires -1.0 <= left <= 1.0
    ensures PlotPoint(left, right, width, height).x == width - NormalizeCentered(left, width)
    ensures 0 <= PlotPoint(left, right, width, height).x <= width
  {
    InSurface(left, width);
  }

  /** A larger left sample is plotted no further left. */
  lemma PlotXMonotone(a: real, b: real, right: real, width: nat, height: nat)
    requires width <= I32_MAX && height <= U32_MAX
    requires -1.0 <= a <= b <= 1.0
    ensures PlotPoint(a, right, width, height).x <= PlotPoint(b, right, width, height).x
  {
    PlotXInSurface(a, right, width, height);
    PlotXInSurface(b, right, width, height);
    FullScaleNoWrap(a, width);
    Antitone(a, b, width);
  }

  /** A larger right sample is plotted no lower, wherever the smaller one does not wrap. */
  lemma PlotYAntitone(left: real, a: real, b: real, width: nat, height: nat)
    requires width <= U32_MAX && height <= U32_MAX
    requires a <= b
    requires NoWrap(a, height)
    ensures PlotPoint(left, b, width, height).y <= PlotPoint(left, a, width, height).y
  {
    Antitone(a, b, height);
  }
}
