/**
  The shared capture state of the program and its two transitions: the
  audio callback, which splits an interleaved stereo block into its
  channels and pushes each into the channel's scope buffer, and the
  per-frame step, which draws both scope buffers and resizes them to the
  surface width.

  The mutex around the state is not modelled: each locked section is one
  sequential transition on a `State` value. The callback holds the lock
  for a whole block; a frame takes it once per channel, so a frame is two
  transitions, and a callback may run between them.
 */
module Audio {
  import opened Numeric
  import opened Outcome
  import opened Fifos
  import opened Canvas
  import Scope

  /** The initial scope width in samples. */
  const WIDTH: nat := 800
  /** The length of the analysis window buffer. */
  const WIN: nat := 1024

  /** Per-channel buffers: the samples on screen and the analysis window. */
  datatype ChannelInfo = ChannelInfo(scope: Fifo<real>, win: Fifo<real>)

  datatype State = State(left: ChannelInfo, right: ChannelInfo)

  /** The state built before the stream opens: both channels alike, all zeros. */
  function Initial(): (st: State)
    ensures st.left == st.right
    ensures Size(st.left.scope) == WIDTH && Size(st.left.win) == WIN
    ensures forall i :: 0 <= i < WIDTH ==> Contents(st.left.scope)[i] == 0.0
    ensures forall i :: 0 <= i < WIN ==> Contents(st.left.win)[i] == 0.0
  {
    var ci := ChannelInfo(New(WIDTH, 0.0), New(WIN, 0.0));
    State(ci, ci)
  }

  /**
    Channel `offs` of an interleaved block: element `offs` of every
    two-sample chunk. Only used on blocks of even length.
   */
  function Channel(buffer: seq<real>, offs: nat): (r: seq<real>)
    requires |buffer| % 2 == 0 && offs <= 1
    ensures |r| == |buffer| / 2
    ensures forall i :: 0 <= i < |r| ==> r[i] == buffer[2 * i + offs]
  {
    seq(|buffer| / 2, i requires 0 <= i < |buffer| / 2 => buffer[2 * i + offs])
  }

  /** The interleaving of two channels of equal length: left, right, left, right, ... */
  function Interleave(l: seq<real>, r: seq<real>): (b: seq<real>)
    requires |l| == |r|
    ensures |b| == 2 * |l|
  {
    if |l| == 0 then [] else [l[0], r[0]] + Interleave(l[1..], r[1..])
  }

  lemma {:induction false} InterleaveAt(l: seq<real>, r: seq<real>, i: nat)
    requires |l| == |r| && i < |l|
    ensures Interleave(l, r)[2 * i] == l[i]
    ensures Interleave(l, r)[2 * i + 1] == r[i]
  {
    if i > 0 {
      InterleaveAt(l[1..], r[1..], i - 1);
    }
  }

  /** Splitting an interleaved pair of channels gives back each channel. */
  lemma SplitInterleave(l: seq<real>, r: seq<real>)
    requires |l| == |r|
    ensures Channel(Interleave(l, r), 0) == l
    ensures Channel(Interleave(l, r), 1) == r
  {
    forall i | 0 <= i < |l|
      ensures Interleave(l, r)[2 * i] == l[i] && Interleave(l, r)[2 * i + 1] == r[i]
    {
      InterleaveAt(l, r, i);
    }
  }

  /** Interleaving the two channels of a block gives back the block. */
  lemma InterleaveSplit(buffer: seq<real>)
    requires |buffer| % 2 == 0
    ensures Interleave(Channel(buffer, 0), Channel(buffer, 1)) == buffer
  {
    var l := Channel(buffer, 0);
    var r := Channel(buffer, 1);
    var b := Interleave(l, r);
    forall j | 0 <= j < |buffer|
      ensures b[j] == buffer[j]
    {
      InterleaveAt(l, r, j / 2);
    }
  }

  /** Splitting distributes over concatenation of whole blocks. */
  lemma ChannelConcat(a: seq<real>, b: seq<real>, offs: nat)
    requires |a| % 2 == 0 && |b| % 2 == 0 && offs <= 1
    ensures Channel(a + b, offs) == Channel(a, offs) + Channel(b, offs)
  {
    var lhs := Channel(a + b, offs);
    var rhs := Channel(a, offs) + Channel(b, offs);
    forall i | 0 <= i < |lhs|
      ensures lhs[i] == rhs[i]
    {
      if i >= |a| / 2 {
        assert 2 * i + offs - |a| == 2 * (i - |a| / 2) + offs;
      }
    }
  }

  /**
    The de-interleaving loop of the callback: `scratch` is cleared and
    extended with element `offs` of every two-sample chunk of the block.
   */
  method Deinterleave(buffer: seq<real>, offs: nat) returns (scratch: seq<real>)
    requires |buffer| % 2 == 0 && offs <= 1
    ensures |scratch| == |buffer| / 2
    ensures forall i :: 0 <= i < |scratch| ==> scratch[i] == buffer[2 * i + offs]
    ensures scratch == Channel(buffer, offs)
  {
    scratch := [];
    var c := 0;
    while c < |buffer| / 2
      invariant 0 <= c <= |buffer| / 2
      invariant |scratch| == c
      invariant forall i :: 0 <= i < c ==> scratch[i] == buffer[2 * i + offs]
    {
      var chunk := buffer[2 * c..2 * c + 2];
      scratch := scratch + [chunk[offs]];
      c := c + 1;
    }
  }

  /**
    `frames * 2` as the `usize` product the callback's `assert_eq!` compares
    against: for more than `usize::MAX / 2` frames it wraps around.
   */
  function BlockLength(frames: nat): (n: nat)
    requires frames <= USIZE_MAX
    ensures n % 2 == 0
    ensures 2 * frames <= USIZE_MAX ==> n == 2 * frames
    ensures 2 * frames > USIZE_MAX ==> n == 2 * frames - 0x1_0000_0000_0000_0000
  {
    WrapUsize(2 * frames)
  }

  /**
    The stream callback: aborts unless the block holds `frames * 2` samples
    (a wrapping `usize` product), then pushes the even samples into the
    left scope buffer and the odd ones into the right.
   */
  function Callback(st: State, buffer: seq<real>, frames: nat): (r: Result<State>)
    requires frames <= USIZE_MAX
    ensures r.Ok? <==> |buffer| == BlockLength(frames)
    ensures r.Ok? ==> r.value.left.win == st.left.win && r.value.right.win == st.right.win
    ensures r.Ok? ==> Size(r.value.left.scope) == Size(st.left.scope)
                      && Size(r.value.right.scope) == Size(st.right.scope)
    ensures r.Ok? ==> Contents(r.value.left.scope)
                      == Newest(Size(st.left.scope), Contents(st.left.scope) + Channel(buffer, 0))
    ensures r.Ok? ==> Contents(r.value.right.scope)
                      == Newest(Size(st.right.scope), Contents(st.right.scope) + Channel(buffer, 1))
  {
    if |buffer| != BlockLength(frames) then Err(AssertionFailed)
    else
      Ok(State(
        ChannelInfo(Push(st.left.scope, Channel(buffer, 0)), st.left.win),
        ChannelInfo(Push(st.right.scope, Channel(buffer, 1)), st.right.win)))
  }

  /**
    A frame count whose doubled `usize` product wraps still passes the
    check: `2^63 + 1` frames accept a block of two samples.
   */
  lemma CallbackWrappedFrameCount(st: State)
    ensures Callback(st, [0.0, 0.0], 0x8000_0000_0000_0001).Ok?
  {
  }

  /**
    Two callbacks in a row leave the same state as one callback on the two
    blocks together, for blocks that fit in one slice together.
   */
  lemma CallbackTwice(st: State, b1: seq<real>, f1: nat, b2: seq<real>, f2: nat)
    requires |b1| == 2 * f1 && |b2| == 2 * f2
    requires 2 * (f1 + f2) <= USIZE_MAX
    ensures Callback(st, b1, f1).Ok?
    ensures Callback(Callback(st, b1, f1).value, b2, f2) == Callback(st, b1 + b2, f1 + f2)
  {
    ChannelConcat(b1, b2, 0);
    ChannelConcat(b1, b2, 1);
    PushTwice(st.left.scope, Channel(b1, 0), Channel(b2, 0));
    PushTwice(st.right.scope, Channel(b1, 1), Channel(b2, 1));
  }

  /** A block of an interleaved pair of channels lands each channel in its own scope buffer. */
  lemma CallbackRoutesChannels(st: State, l: seq<real>, r: seq<real>)
    requires |l| == |r|
    requires 2 * |l| <= USIZE_MAX
    ensures var res := Callback(st, Interleave(l, r), |l|);
            && res.Ok?
            && res.value.left.scope == Push(st.left.scope, l)
            && res.value.right.scope == Push(st.right.scope, r)
  {
    SplitInterleave(l, r);
  }

  /** The check after drawing a channel: its scope buffer is resized when the width has changed. */
  function ResizeScope(ci: ChannelInfo, width: nat): (r: ChannelInfo)
    ensures Size(r.scope) == width
    ensures r.win == ci.win
    ensures Size(ci.scope) == width ==> r == ci
    ensures forall i :: 0 <= i < width && i < Size(ci.scope) ==>
              Contents(r.scope)[i] == Contents(ci.scope)[i]
  {
    if width != Size(ci.scope) then ChannelInfo(Resize(ci.scope, width, 0.0), ci.win) else ci
  }

  /**
    One locked section of a frame: draw channel `offs`'s scope buffer as a
    trace (left in green and red, right in blue and magenta), then resize
    that buffer to the surface width. The other channel is untouched.
   */
  function FrameChannel(st: State, offs: nat, width: nat, height: nat): (r: (seq<Draw>, State))
    requires offs <= 1
    requires width <= U32_MAX && height <= U32_MAX
    ensures offs == 0 ==> r.0 == Scope.Trace(Contents(st.left.scope), height, Green, Red)
    ensures offs == 1 ==> r.0 == Scope.Trace(Contents(st.right.scope), height, Blue, Magenta)
    ensures offs == 0 ==> r.1.right == st.right && Size(r.1.left.scope) == width
    ensures offs == 1 ==> r.1.left == st.left && Size(r.1.right.scope) == width
    ensures r.1.left.win == st.left.win && r.1.right.win == st.right.win
  {
    if offs == 0 then
      (Scope.Trace(Contents(st.left.scope), height, Green, Red),
       State(ResizeScope(st.left, width), st.right))
    else
      (Scope.Trace(Contents(st.right.scope), height, Blue, Magenta),
       State(st.left, ResizeScope(st.right, width)))
  }

  /**
    One frame of the main loop with no callback in between: clear to black,
    then the locked sections for the left and the right channel in turn.
   */
  function Frame(st: State, width: nat, height: nat): (r: (seq<Draw>, State))
    requires width <= U32_MAX && height <= U32_MAX
    ensures r.0 == Scope.Render(Contents(st.left.scope), Contents(st.right.scope), height)
    ensures Size(r.1.left.scope) == width && Size(r.1.right.scope) == width
    ensures r.1.left.win == st.left.win && r.1.right.win == st.right.win
  {
    var (leftDraws, mid) := FrameChannel(st, 0, width, height);
    var (rightDraws, after) := FrameChannel(mid, 1, width, height);
    ([Clear(Black)] + leftDraws + rightDraws, after)
  }

  /**
    A callback that runs between a frame's two locked sections is seen by
    the right channel's trace but not by the left one's: the right trace
    is drawn from the buffer after the push.
   */
  lemma CallbackBetweenChannels(st: State, width: nat, height: nat, buffer: seq<real>, frames: nat)
    requires width <= U32_MAX && height <= U32_MAX
    requires frames <= USIZE_MAX && |buffer| == BlockLength(frames)
    ensures var (leftDraws, mid) := FrameChannel(st, 0, width, height);
            var cb := Callback(mid, buffer, frames);
            && leftDraws == Scope.Trace(Contents(st.left.scope), height, Green, Red)
            && cb.Ok?
            && FrameChannel(cb.value, 1, width, height).0
               == Scope.Trace(Newest(Size(st.right.scope), Contents(st.right.scope) + Channel(buffer, 1)),
                              height, Blue, Magenta)
  {
  }

  /** A frame at an unchanged width leaves the state as it was. */
  lemma FrameKeepsSteadyState(st: State, width: nat, height: nat)
    requires width <= U32_MAX && height <= U32_MAX
    requires Size(st.left.scope) == width && Size(st.right.scope) == width
    ensures Frame(st, width, height).1 == st
  {
  }

  /** Callbacks never change the buffer sizes a frame has set. */
  lemma CallbackKeepsFrameWidth(st: State, width: nat, height: nat, buffer: seq<real>, frames: nat)
    requires width <= U32_MAX && height <= U32_MAX
    requires frames <= USIZE_MAX && |buffer| == BlockLength(frames)
    ensures var after := Callback(Frame(st, width, height).1, buffer, frames);
            && after.Ok?
            && Size(after.value.left.scope) == width
            && Size(after.value.right.scope) == width
  {
  }
}
