/**
  The oscilloscope view `Scope`: both channels drawn as polylines over the
  sample index, each segment coloured by whether its newest sample clips.
 */
module Scope {
  import opened Numeric
  import opened Canvas
  import opened View

  /** A sample outside full scale. */
  predicate Clipped(samp: real)
  {
    samp > 1.0 || samp < -1.0
  }

  /** The number of segments joining `n` consecutive points. */
  function Segments(n: nat): nat
  {
    if n == 0 then 0 else n - 1
  }

  /** The point of sample `x` at column `x`. */
  function SamplePoint(x: nat, samp: real, height: nat): Point
    requires height <= U32_MAX
  {
    Point(UsizeAsI32(x), NormalizeCentered(samp, height))
  }

  /**
    The segment ending at sample `x` (for `x >= 1`): from the previous
    sample's point to this one's, in the clip colour exactly when this
    sample clips.
   */
  function Segment(samps: seq<real>, x: nat, height: nat, def: Color, clip: Color): Draw
    requires 1 <= x < |samps|
    requires height <= U32_MAX
  {
    Line(SamplePoint(x - 1, samps[x - 1], height), SamplePoint(x, samps[x], height),
         if Clipped(samps[x]) then clip else def, BlendAdd)
  }

  /**
    The lines one channel's loop in `Scope::render` draws, accumulated
    sample by sample: nothing for the first sample, then for every later
    sample the segment ending at it.
   */
  function Trace(samps: seq<real>, height: nat, def: Color, clip: Color): (r: seq<Draw>)
    requires height <= U32_MAX
    ensures |r| == Segments(|samps|)
    ensures forall k :: 0 <= k < |r| ==> r[k] == Segment(samps, k + 1, height, def, clip)
  {
    if |samps| <= 1 then []
    else
      var x := |samps| - 1;
      var prefix := samps[..x];
      assert forall k :: 0 <= k < x ==> prefix[k] == samps[k];
      Trace(prefix, height, def, clip) + [Segment(samps, x, height, def, clip)]
  }

  /** Consecutive segments share their endpoint: the trace is one connected polyline. */
  lemma TraceConnected(samps: seq<real>, height: nat, def: Color, clip: Color)
    requires height <= U32_MAX
    ensures var r := Trace(samps, height, def, clip);
            forall k :: 1 <= k < |r| ==> r[k].from == r[k - 1].to
  {
  }

  /** Segment `k` joins sample `k` to sample `k + 1`, coloured by whether sample `k + 1` clips. */
  lemma TraceShape(samps: seq<real>, height: nat, def: Color, clip: Color)
    requires height <= U32_MAX
    ensures var r := Trace(samps, height, def, clip);
            forall k :: 0 <= k < |r| ==>
              && r[k].Line?
              && r[k].blend == BlendAdd
              && r[k].from == SamplePoint(k, samps[k], height)
              && r[k].to == SamplePoint(k + 1, samps[k + 1], height)
              && (Clipped(samps[k + 1]) ==> r[k].color == clip)
              && (!Clipped(samps[k + 1]) ==> r[k].color == def)
  {
    var r := Trace(samps, height, def, clip);
    forall k | 0 <= k < |r|
      ensures r[k] == Segment(samps, k + 1, height, def, clip)
    {
    }
  }

  /**
    `Scope::render`: clear to black, then the left channel in green (red
    where it clips), then the right channel in blue (magenta where it clips).
   */
  function Render(left: seq<real>, right: seq<real>, height: nat): (r: seq<Draw>)
    requires height <= U32_MAX
    ensures |r| == 1 + Segments(|left|) + Segments(|right|)
    ensures r[0] == Clear(Black)
    ensures forall i :: 1 <= i < 1 + Segments(|left|) ==>
              r[i].Line? && (r[i].color == Green || r[i].color == Red)
    ensures forall i :: 1 + Segments(|left|) <= i < |r| ==>
              r[i].Line? && (r[i].color == Blue || r[i].color == Magenta)
  {
    [Clear(Black)] + Trace(left, height, Green, Red) + Trace(right, height, Blue, Magenta)
  }

  /** Fewer than two samples draw nothing; otherwise one segment fewer than samples. */
  lemma SegmentCount(samps: seq<real>, height: nat, def: Color, clip: Color)
    requires height <= U32_MAX
    ensures |samps| <= 1 <==> Trace(samps, height, def, clip) == []
    ensures |samps| >= 1 ==> |Trace(samps, height, def, clip)| == |samps| - 1
  {
  }

  /** `Scope::requested_window`: the surface's output width. */
  lemma RequestsOutputWidth(width: nat)
    ensures RequestedWindow(ScopeView(width)) == width
  {
  }
}
