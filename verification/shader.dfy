/**
  The GPU kernel `spectrogram_line`: one invocation per (pixel column,
  channel) computes the same level, `specy` and alpha as the CPU
  spectrogram and writes the alpha into one byte of the waterfall row.

  The storage buffers are sequences: `spectrum` holds the channels' spectra
  back to back, `spectrum_length` bins each; `image` is the row buffer of
  four-byte pixels laid out `a, b, g, r`. An out-of-bounds access is an
  `Err`.

  The kernel is built for the SPIR-V target, whose pointer width is 32
  bits: its `usize` arithmetic wraps at 2^32 (`KernelUsize`), unlike the
  64-bit host build of the CPU views.
 */
module Shader {
  import opened Numeric
  import opened Outcome
  import opened Spectrogram

  /** The push constants of the kernel (`f32` and `u32` fields). */
  datatype PushConstants = PushConstants(
    bias: real,
    range: real,
    width: nat,
    height: nat,
    waterHeight: nat,
    waterY: nat,
    graphHeight: nat,
    spectrumLength: nat,
    wdOffset: nat)

  predicate ValidConstants(sp: PushConstants)
  {
    && sp.width <= U32_MAX && sp.height <= U32_MAX
    && sp.waterHeight <= U32_MAX && sp.waterY <= U32_MAX
    && sp.graphHeight <= U32_MAX && sp.spectrumLength <= U32_MAX
    && sp.wdOffset <= U32_MAX
  }

  /** Byte offsets within a pixel of the row buffer. */
  const AlphaByte: nat := 0
  const BlueByte: nat := 1
  const GreenByte: nat := 2
  const RedByte: nat := 3

  /** The exact result of a kernel `usize` operation, wrapped to 32 bits. */
  function KernelUsize(n: int): (w: nat)
    ensures w <= U32_MAX
    ensures 0 <= n <= U32_MAX ==> w == n
  {
    n % 0x1_0000_0000
  }

  /** The kernel's `specidx`: the same warped bin as the CPU's, cast to a 32-bit `usize`. */
  function KernelSpecIdx(m: Math, x: nat, width: nat, len: nat): nat
    requires width > 0
  {
    CastU32(BinPosition(m.exp2(Frac(x, width)), len) / 2.0)
  }

  /** Wherever the CPU's bin index fits in 32 bits, the kernel computes the same one. */
  lemma KernelSpecIdxAgrees(m: Math, x: nat, width: nat, len: nat)
    requires width > 0
    requires SpecIdx(m, x, width, len) <= U32_MAX
    ensures KernelSpecIdx(m, x, width, len) == SpecIdx(m, x, width, len)
  {
  }

  /** `spectrum_length * chan + specidx` in kernel `usize` arithmetic: the bin the invocation reads. */
  function ReadIndex(m: Math, sp: PushConstants, x: nat, chan: nat): nat
    requires sp.width > 0
  {
    KernelUsize(KernelUsize(sp.spectrumLength * chan) + KernelSpecIdx(m, x, sp.width, sp.spectrumLength))
  }

  /**
    Column `x` modulo `2^30`: for a `u32` column, `x * 4` in kernel `usize`
    arithmetic is `4 * Quarter(x)`.
   */
  function Quarter(x: nat): (q: nat)
    ensures q < 0x4000_0000
    ensures x < 0x4000_0000 ==> q == x
    ensures KernelUsize(x * 4) == 4 * q
  {
    var k := x / 0x4000_0000;
    assert x == k * 0x4000_0000 + x % 0x4000_0000;
    assert x * 4 == k * 0x1_0000_0000 + 4 * (x % 0x4000_0000);
    x % 0x4000_0000
  }

  /** The next column's quarter follows this one's, wrapping at `2^30`. */
  lemma QuarterNext(x: nat)
    requires x <= U32_MAX
    ensures Quarter(WrapU32(x + 1)) == if Quarter(x) == 0x3fff_ffff then 0 else Quarter(x) + 1
  {
    var q := x / 0x4000_0000;
    assert x == q * 0x4000_0000 + Quarter(x);
    if Quarter(x) == 0x3fff_ffff {
      assert WrapU32(x + 1) == (q + 1) * 0x4000_0000 || WrapU32(x + 1) == 0;
    } else {
      assert WrapU32(x + 1) == q * 0x4000_0000 + Quarter(x) + 1;
    }
  }

  /** The start of pixel `x`'s slice: `wd_offset + x * 4` in kernel `usize` arithmetic. */
  function SlotStart(sp: PushConstants, x: nat): (b: nat)
    requires sp.wdOffset <= U32_MAX
    ensures b == KernelUsize(sp.wdOffset + KernelUsize(x * 4))
  {
    WrapU32(sp.wdOffset + 4 * Quarter(x))
  }

  /**
    The end of pixel `x`'s slice; `x + 1` is a `u32` sum. Whenever the
    bounds are in order, wrapped or not, the slice is four bytes long.
   */
  function SlotEnd(sp: PushConstants, x: nat): (e: nat)
    requires sp.wdOffset <= U32_MAX
    requires x <= U32_MAX
    ensures e == KernelUsize(sp.wdOffset + KernelUsize(WrapU32(x + 1) * 4))
    ensures SlotStart(sp, x) <= e ==> e == SlotStart(sp, x) + 4
  {
    QuarterNext(x);
    WrapU32(sp.wdOffset + 4 * Quarter(WrapU32(x + 1)))
  }

  /** `1 - chan + 1` in kernel `usize` arithmetic: the byte of the pixel the invocation writes. */
  function ChannelOffset(chan: nat): (off: nat)
    requires chan <= U32_MAX
    ensures chan <= 2 ==> off == 2 - chan
    ensures chan > 2 ==> off == 0x1_0000_0000 + 2 - chan
  {
    KernelUsize(KernelUsize(1 - chan) + 1)
  }

  /**
    One invocation: read the bin, compute the level, `specy` and the alpha,
    and store the alpha into the channel's byte of pixel `x`.
   */
  function SpectrogramLine(m: Math, sp: PushConstants, x: nat, chan: nat,
                           spectrum: seq<Complex>, image: seq<Byte>): (r: Result<seq<Byte>>)
    requires Lawful(m)
    requires ValidConstants(sp) && sp.width > 0
    requires x <= U32_MAX && chan <= U32_MAX
    ensures r.Ok? <==>
              && ReadIndex(m, sp, x, chan) < |spectrum|
              && SlotStart(sp, x) <= SlotEnd(sp, x) <= |image|
              && ChannelOffset(chan) < SlotEnd(sp, x) - SlotStart(sp, x)
    ensures r.Ok? ==> |r.value| == |image|
    ensures r.Ok? ==> forall j :: 0 <= j < |image| && j != SlotStart(sp, x) + ChannelOffset(chan)
                        ==> r.value[j] == image[j]
  {
    var ri := ReadIndex(m, sp, x, chan);
    if ri >= |spectrum| then Err(IndexOutOfBounds)
    else
      var specy := SpecY(Level(m, spectrum[ri]), sp.bias, sp.range, sp.graphHeight);
      var lo := SlotStart(sp, x);
      var hi := SlotEnd(sp, x);
      if !(lo <= hi <= |image|) then Err(IndexOutOfBounds)
      else
        var off := ChannelOffset(chan);
        if off >= hi - lo then Err(IndexOutOfBounds)
        else Ok(image[lo + off := Alpha(specy, sp.graphHeight)])
  }

  /** The spectrum of channel `chan` among two stored back to back. */
  function ChannelSpectrum(left: seq<Complex>, right: seq<Complex>, chan: nat): seq<Complex>
  {
    if chan == 0 then left else right
  }

  /**
    For a column of the view and the left (0) or right (1) channel, the
    kernel writes exactly the alpha the CPU spectrogram computes for that
    column, into the green byte for the left channel and the blue byte for
    the right one; it aborts only when the pixel's slice is not four bytes
    inside the row buffer (its end wrapped below its start, or it runs past
    the buffer). The spectrum buffer is a slice of the 32-bit
    target, so it holds at most `isize::MAX` bins.
   */
  lemma MatchesCpu(m: Math, sp: PushConstants, x: nat, chan: nat,
                   left: seq<Complex>, right: seq<Complex>, image: seq<Byte>)
    requires Lawful(m)
    requires ValidConstants(sp)
    requires x < sp.width
    requires chan <= 1
    requires |left| == |right| == sp.spectrumLength > 0
    requires |left + right| <= I32_MAX
    ensures ChannelOffset(chan) == if chan == 0 then GreenByte else BlueByte
    ensures var col := ColumnAt(m, x, sp.width, ChannelSpectrum(left, right, chan),
                                sp.bias, sp.range, sp.graphHeight);
            && col.Ok?
            && SpectrogramLine(m, sp, x, chan, left + right, image)
               == if SlotEnd(sp, x) == SlotStart(sp, x) + 4 <= |image|
                  then Ok(image[SlotStart(sp, x) + ChannelOffset(chan) := col.value.alpha])
                  else Err(IndexOutOfBounds)
  {
    CpuAlpha(m, sp, x, chan, left, right);
    LineWrite(m, sp, x, chan, left + right, image);
  }

  /** The CPU column's alpha is the alpha of the bin the invocation reads. */
  lemma CpuAlpha(m: Math, sp: PushConstants, x: nat, chan: nat,
                 left: seq<Complex>, right: seq<Complex>)
    requires Lawful(m)
    requires ValidConstants(sp)
    requires x < sp.width
    requires chan <= 1
    requires |left| == |right| == sp.spectrumLength > 0
    requires |left + right| <= I32_MAX
    ensures ReadIndex(m, sp, x, chan) < |left + right|
    ensures var col := ColumnAt(m, x, sp.width, ChannelSpectrum(left, right, chan),
                                sp.bias, sp.range, sp.graphHeight);
            && col.Ok?
            && col.value.alpha
               == Alpha(SpecY(Level(m, (left + right)[ReadIndex(m, sp, x, chan)]),
                              sp.bias, sp.range, sp.graphHeight), sp.graphHeight)
  {
    ReadsChannelBin(m, sp, x, chan, left, right);
  }

  /** For a column of the view the bin read from the stored spectra is that column's bin of the channel. */
  lemma ReadsChannelBin(m: Math, sp: PushConstants, x: nat, chan: nat,
                        left: seq<Complex>, right: seq<Complex>)
    requires Lawful(m)
    requires ValidConstants(sp)
    requires x < sp.width
    requires chan <= 1
    requires |left| == |right| == sp.spectrumLength > 0
    requires |left + right| <= I32_MAX
    ensures SpecIdx(m, x, sp.width, sp.spectrumLength) < sp.spectrumLength
    ensures ReadIndex(m, sp, x, chan) < |left + right|
    ensures (left + right)[ReadIndex(m, sp, x, chan)]
            == ChannelSpectrum(left, right, chan)[SpecIdx(m, x, sp.width, sp.spectrumLength)]
  {
    ReadsOwnChannel(m, sp, x, chan);
  }

  /**
    An invocation whose read is in bounds writes its alpha, at the
    channel's byte of the pixel, exactly when the pixel's slice is four
    bytes inside the buffer; by `SlotEnd` that is the same as the slice
    bounds being in order and inside the buffer.
   */
  lemma LineWrite(m: Math, sp: PushConstants, x: nat, chan: nat,
                  spectrum: seq<Complex>, image: seq<Byte>)
    requires Lawful(m)
    requires ValidConstants(sp) && sp.width > 0
    requires x <= U32_MAX && chan <= 2
    requires ReadIndex(m, sp, x, chan) < |spectrum|
    ensures SpectrogramLine(m, sp, x, chan, spectrum, image)
            == if SlotEnd(sp, x) == SlotStart(sp, x) + 4 <= |image|
               then Ok(image[SlotStart(sp, x) + ChannelOffset(chan)
                             := Alpha(SpecY(Level(m, spectrum[ReadIndex(m, sp, x, chan)]),
                                            sp.bias, sp.range, sp.graphHeight), sp.graphHeight)])
               else Err(IndexOutOfBounds)
  {
  }

  /**
    A column of the view reads a bin of its own channel's block, and from
    the first half of it, when both blocks fit in a slice of the 32-bit
    target.
   */
  lemma ReadsOwnChannel(m: Math, sp: PushConstants, x: nat, chan: nat)
    requires Lawful(m)
    requires ValidConstants(sp)
    requires x < sp.width
    requires chan <= 1
    requires sp.spectrumLength > 0
    requires 2 * sp.spectrumLength <= I32_MAX
    ensures ReadIndex(m, sp, x, chan) == sp.spectrumLength * chan + SpecIdx(m, x, sp.width, sp.spectrumLength)
    ensures 2 * (ReadIndex(m, sp, x, chan) - sp.spectrumLength * chan) < sp.spectrumLength
  {
    SpecIdxFirstHalf(m, x, sp.width, sp.spectrumLength);
    KernelSpecIdxAgrees(m, x, sp.width, sp.spectrumLength);
    assert sp.spectrumLength * chan <= sp.spectrumLength;
  }

  /**
    The channel selects the pixel byte: green for 0, blue for 1, alpha for
    2, and, by wrap-around, red for `u32::MAX`; every other channel's
    write is out of bounds.
   */
  lemma ChannelBytes(m: Math, sp: PushConstants, x: nat, chan: nat,
                     spectrum: seq<Complex>, image: seq<Byte>)
    requires Lawful(m)
    requires ValidConstants(sp) && sp.width > 0
    requires x <= U32_MAX && chan <= U32_MAX
    ensures chan == 0 ==> ChannelOffset(chan) == GreenByte
    ensures chan == 1 ==> ChannelOffset(chan) == BlueByte
    ensures chan == 2 ==> ChannelOffset(chan) == AlphaByte
    ensures chan == U32_MAX ==> ChannelOffset(chan) == RedByte
    ensures 2 < chan < U32_MAX ==> SpectrogramLine(m, sp, x, chan, spectrum, image).Err?
  {
  }

  /**
    A successful invocation writes one byte inside the four-byte slice of
    its pixel, which lies inside the buffer; only channels 0 to 2 and
    `u32::MAX` can succeed.
   */
  lemma WriteInsideSlot(m: Math, sp: PushConstants, x: nat, chan: nat,
                        spectrum: seq<Complex>, image: seq<Byte>)
    requires Lawful(m)
    requires ValidConstants(sp) && sp.width > 0
    requires x <= U32_MAX && chan <= U32_MAX
    requires SpectrogramLine(m, sp, x, chan, spectrum, image).Ok?
    ensures chan <= 2 || chan == U32_MAX
    ensures SlotStart(sp, x) <= SlotStart(sp, x) + ChannelOffset(chan) < SlotStart(sp, x) + 4
    ensures SlotStart(sp, x) + 4 <= |image|
  {
  }

  /** The byte an invocation for a view column and channel 0 or 1 writes. */
  function WritePos(sp: PushConstants, x: nat, chan: nat): nat
    requires sp.wdOffset <= U32_MAX
    requires chan <= 1
  {
    SlotStart(sp, x) + ChannelOffset(chan)
  }

  /**
    Different (column, channel) invocations write different bytes, so they
    never race, as long as each pixel's offset `wd_offset + 4 * (x + 1)`
    stays within the 32-bit address range.
   */
  lemma WritesDisjoint(sp: PushConstants, x1: nat, c1: nat, x2: nat, c2: nat)
    requires c1 <= 1 && c2 <= 1
    requires (x1, c1) != (x2, c2)
    requires sp.wdOffset + 4 * (x1 + 1) <= 0x1_0000_0000
    requires sp.wdOffset + 4 * (x2 + 1) <= 0x1_0000_0000
    ensures WritePos(sp, x1, c1) != WritePos(sp, x2, c2)
  {
    assert WritePos(sp, x1, c1) == sp.wdOffset + 4 * x1 + 2 - c1;
    assert WritePos(sp, x2, c2) == sp.wdOffset + 4 * x2 + 2 - c2;
    if x1 < x2 {
      assert 4 * x1 + 4 <= 4 * x2;
    } else if x2 < x1 {
      assert 4 * x2 + 4 <= 4 * x1;
    }
  }

  /** Beyond that range slots wrap: columns `2^30` apart write the same byte. */
  lemma WrappedSlotsCollide(sp: PushConstants, chan: nat)
    requires ValidConstants(sp)
    requires chan <= 1
    ensures WritePos(sp, 0, chan) == WritePos(sp, 0x4000_0000, chan)
  {
  }
}
