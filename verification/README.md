# audec in Dafny

A model of the computational core of `audec`, a real-time stereo audio
visualiser. The model covers:

- the fixed-length sliding sample buffer `Fifo`;
- the capture callback that de-interleaves a stereo block into the two
  channels' buffers;
- the per-frame resize of those buffers;
- the sample-to-pixel mapping `normalize_centered`;
- the drawing commands of the oscilloscope, vectorscope and spectrogram
  views;
- the GPU kernel `spectrogram_line`, the spectrogram's per-pixel twin;
- the window weighting curves.

Every operation is a pure function over immutable datatypes. Views return
the list of drawing commands (`Canvas.Draw`) they would issue, in order,
each with the colour and blend mode in force. Where the source mutates
(`Fifo::push`, `Window::apply`, the de-interleaving loop), a method with
loop invariants also models the in-place algorithm and is proved equal to
the functional definition.

Semantics chosen:

- **Integers.** `u32`, `i32` and `usize` arithmetic wraps around, as in a
  release build (`Numeric.WrapI32`, `WrapU32`, `WrapUsize`). The host
  build's `usize` is 64 bits wide. The GPU kernel is built for SPIR-V,
  whose pointer width is 32 bits, so its `usize` arithmetic wraps at
  `2^32` (`Shader.KernelUsize`). Slice bounds
  checks and `assert_eq!` still abort; an abort is an `Err` of
  `Outcome.Result`.
- **Float-to-integer `as` casts** truncate toward zero and saturate
  (`Numeric.SaturatingCast`). `NaN` casts to 0. The two places where a
  `NaN` can arise are written out: `0/0` in the spectrogram alpha when the
  graph is empty, and a zero `range` in `specy` (`Numeric.F32DivToI32`).
- **Floats** are `real`: samples, magnitudes and levels. `f32` rounding is
  not modelled.
- **Float library calls.** `2f32.powf`, `log10` and the complex magnitude
  are fields of a `Spectrogram.Math` value. The predicate
  `Spectrogram.Lawful` states the facts the code relies on:
  - `exp2(0) = 1`;
  - `exp2` is monotone;
  - `exp2(t) < 2` for `t < 1`;
  - magnitudes are non-negative, and zero only for the zero bin;
  - `log10` is a partial function, defined on positive arguments.

  Because `log10` is partial, the verifier checks that `log10` is never
  applied to 0.
- **`Fifo::resize`** follows `Vec::resize` (fifo.rs:28-30): growing pads
  with defaults at the back, and shrinking keeps the leading (oldest)
  elements.

Modules, one per file:

| module | file |
|---|---|
| `Numeric`, `Outcome` | numeric.dfy |
| `Fifos` | fifo.dfy |
| `Windows` | window.dfy |
| `Canvas` | canvas.dfy |
| `View` | view.dfy |
| `Scope` | scope.dfy |
| `Vectorscope` | vector.dfy |
| `Spectrogram` | spectrogram.dfy |
| `Shader` | shader.dfy |
| `Audio` | audio.dfy |

`Audio` covers the state and the transitions of main.rs.

## Model

| member | source | states |
|---|---|---|
| Fifos.New | src/fifo.rs:8-12 | `new(sz)` holds `sz` elements, all equal to the default value |
| Fifos.Size | src/fifo.rs:26 | accessor: `size()` is the length of the slice the `Deref` view exposes |
| Fifos.Contents | src/fifo.rs:33-36 | accessor: the `Deref` view, the held elements oldest first; every property of the buffer is stated through it |
| Fifos.Push | src/fifo.rs:14-24 | `push` keeps the size, and the contents become the newest `size()` elements of the old contents followed by the block |
| Fifos.PushLongBlock | src/fifo.rs:18-19 | a block at least as long as the buffer leaves exactly the block's trailing `size()` elements |
| Fifos.PushShortBlock | src/fifo.rs:20-22 | a shorter block gives `old[len(data)..] ++ data` |
| Fifos.PushIntoEmpty | src/fifo.rs:18-19 | pushing into a zero-size buffer changes nothing |
| Fifos.PushTwice | src/fifo.rs:14-24 | `push(a)` then `push(b)` equals `push(a ++ b)`, so the buffer is a pure sliding window |
| Fifos.PushScenario | src/fifo.rs:14-24 | on eight zeros, pushing `[1,2,3]` and then `[4..10]` leaves `[3..10]` |
| Fifos.Resize | src/fifo.rs:28-30 | `resize(n)` gives size `n`; the first `min(n, old size)` elements are kept and the rest are defaults |
| Fifos.ResizeSameSize | src/fifo.rs:28-30 | resizing to the current size changes nothing |
| Fifos.GrowThenShrink | src/fifo.rs:28-30 | growing and then shrinking back to the old size restores the buffer |
| Fifos.PushInPlace | src/fifo.rs:14-24 | the in-place algorithm (`copy_from_slice`, or `copy_within` then `copy_from_slice`) on an array computes the same contents as `Push` |
| Windows.Size | src/window.rs:20 | accessor: `size()` is the length of the shape |
| Windows.Weighted | src/window.rs:11-13 | the element-by-element product has the data's length and element `i` equal to `data[i] * shape[i]`; `Windows.Apply`'s loop is proved to compute it |
| Windows.Apply | src/window.rs:8-14 | aborts exactly when the shape and data lengths differ; otherwise every datum is multiplied by its weight and the length is kept |
| Windows.NewRect | src/window.rs:24-28 | `new_rect(sz)` has size `sz` and every weight is 1 |
| Windows.RectIsIdentity | src/window.rs:24-28 | applying the rectangular window leaves the data unchanged |
| Windows.Windows | src/window.rs:30-34 | the table has exactly one key, `"rect"`, mapped to `new_rect` |
| View.NormalizeCentered | src/view.rs:18-21 | `normalize_centered` always yields an `i32` |
| View.Unwrapped | src/view.rs:18-21 | wherever the final `i32` subtraction does not wrap (`View.NoWrap`), the result is `h/2 - trunc((h/2)*samp)` |
| View.FullScaleNoWrap | src/view.rs:18-21 | for heights up to `i32::MAX`, no sample down to -1 makes the subtraction wrap |
| View.ClippedNoWrap | src/view.rs:18-21 | for heights up to a billion rows, clipped samples down to -2 do not make the subtraction wrap either |
| View.CentreAtZero | src/view.rs:18-21 | sample 0 maps to `h/2` |
| View.FullScale | src/view.rs:18-21 | sample 1 maps to row 0 for every `u32` height; for heights up to `i32::MAX`, sample -1 maps to `2*(h/2)` |
| View.InSurface | src/view.rs:18-21 | samples in `[-1, 1]` map into `[0, 2*(h/2)]`, which lies within `[0, h]` |
| View.Antitone | src/view.rs:18-21 | a larger sample, clipped or not, is never drawn lower than a smaller one whose subtraction does not wrap, and does not wrap itself: the mapping is non-increasing wherever it does not wrap |
| View.RequestedWindow | src/view.rs:15 | accessor: views that do not override `requested_window` request 0; the oscilloscope requests its width |
| Scope.Trace | src/view/scope.rs:36-52 | one channel gives `max(len-1, 0)` segments; segment `k` is the one ending at sample `k+1` |
| Scope.SamplePoint | src/view/scope.rs:47-48 | computes the point `(x as i32, normalize_centered(samp, height))`; no contract of its own, its use is stated by `Scope.TraceShape` |
| Scope.Clipped | src/view/scope.rs:40 | the clip test `samp > 1.0 || samp < -1.0`; its use is stated by `Scope.TraceShape` |
| Scope.Segment | src/view/scope.rs:38-49 | computes the line ending at sample `x` and its colour choice; no contract of its own, its use is stated by `Scope.Trace` and `Scope.TraceShape` |
| Scope.TraceConnected | src/view/scope.rs:46-51 | consecutive segments share their endpoint |
| Scope.TraceShape | src/view/scope.rs:38-51 | segment `k` joins `(k, nc(s[k]))` to `(k+1, nc(s[k+1]))` with additive blending, in the clip colour exactly when sample `k+1` is above 1 or below -1 |
| Scope.SegmentCount | src/view/scope.rs:36-52 | zero or one sample draws nothing; otherwise one segment fewer than samples |
| Scope.Render | src/view/scope.rs:12-58 | first a clear to black, then the left channel's segments in green or red, then the right channel's in blue or magenta |
| Scope.RequestsOutputWidth | src/view/scope.rs:60-62 | accessor: the oscilloscope requests a window of its surface's output width |
| Vectorscope.Lines | src/view/vec.rs:26-35 | over `zip(left, right)`, `max(min(len)-1, 0)` lines are drawn, each joining consecutive points in the trace colour with additive blending |
| Vectorscope.PlotPoint | src/view/vec.rs:28-31 | computes `(width as i32 - nc(l, width), nc(r, height))`; no contract of its own, its properties are `Vectorscope.PlotXInSurface`, `PlotXMonotone` and `PlotYAntitone` |
| Vectorscope.Render | src/view/vec.rs:15-41 | first a fill of the whole surface with `RGBA(0,0,0,fade_rate)`, replacing what is there, then only lines in `RGB(0,b,b)` |
| Vectorscope.PlotXInSurface | src/view/vec.rs:28-31 | for a left sample in `[-1, 1]`, x is `width - nc(l, width)` and lies in `[0, width]` |
| Vectorscope.PlotXMonotone | src/view/vec.rs:28-31 | x is non-decreasing in the left sample |
| Vectorscope.PlotYAntitone | src/view/vec.rs:28-31 | y is non-increasing in the right sample, for every `u32` height, wherever the smaller sample does not wrap |
| Spectrogram.Calibration | src/view/spec.rs:19-20 | `bias*10 = db_bias` and `range*10 = db_range` |
| Spectrogram.MakeLayout | src/view/spec.rs:22-24 | the layout fields are `u32` values |
| Spectrogram.LayoutConsistent | src/view/spec.rs:22-24 | `water_y + graph_height + 1 = height` exactly when `1 <= water_height <= height`; then `water_y = water_height - 1` and `graph_height = height - water_height` without wrap-around |
| Spectrogram.WaterfallFits | src/view/spec.rs:22 | a waterfall fraction in `[0, 1]` never makes the waterfall taller than the view |
| Spectrogram.ClearedRectReachesBottom | src/view/spec.rs:26-27 | with a consistent layout, the cleared rectangle runs from row `water_y` to the bottom of the view |
| Spectrogram.ClearedRect | src/view/spec.rs:27 | computes `Rect::new(0, water_y as i32, width, graph_height + 1)`; no contract of its own, its property is `Spectrogram.ClearedRectReachesBottom` |
| Spectrogram.SpecIdx | src/view/spec.rs:55-57 | computes `((2^(x/width) - 1) * len / 2) as usize`; no contract of its own, its properties are `Spectrogram.SpecIdxAtZero`, `SpecIdxMonotone` and `SpecIdxFirstHalf` |
| Spectrogram.SpecIdxAtZero | src/view/spec.rs:55-57 | column 0 reads bin 0 |
| Spectrogram.SpecIdxMonotone | src/view/spec.rs:55-57 | the bin index is non-decreasing in the column |
| Spectrogram.SpecIdxFirstHalf | src/view/spec.rs:54-57 | every column `x < width` reads a bin with `2*idx < len`, i.e. in the first half of the spectrum |
| Spectrogram.Level | src/view/spec.rs:58-63 | a zero bin gives the sentinel -1000; any other bin gives `log10` of a positive magnitude |
| Spectrogram.SpecY | src/view/spec.rs:65-67 | `specy` is clamped to `[0, graph_height]` |
| Spectrogram.SpecYClamp | src/view/spec.rs:65-67 | for `graph_height <= i32::MAX`, inside the graph the clamp changes nothing; outside it, `specy` pins to the nearer edge |
| Spectrogram.Deflection | src/view/spec.rs:65 | computes the numerator `(bias + level) * -graph_height` of `specy`; its property is `Spectrogram.DeflectionAntitone`, used by `SpecYAntitone` |
| Spectrogram.ClampToGraph | src/view/spec.rs:66-67 | the clamp `min(raw, graph_height as i32)` then `max(0)` is never negative, and never above `graph_height` when that fits in `i32`; its other properties are `Spectrogram.ClampMonotone` and `SpecYClamp` |
| Spectrogram.SpecYAntitone | src/view/spec.rs:65-67 | with a range of at least zero, a louder bin is drawn no lower |
| Spectrogram.AlphaEnds | src/view/spec.rs:68-73 | the alpha is 255 at the top of the graph and 0 at its bottom |
| Spectrogram.AlphaAntitone | src/view/spec.rs:68-73 | the alpha is non-increasing down the graph |
| Spectrogram.Alpha | src/view/spec.rs:72 | computes `((1 - specy/graph_height) * 255) as u8`, 0 for the NaN of an empty graph; no contract of its own, its properties are `Spectrogram.AlphaEnds` and `AlphaAntitone` |
| Spectrogram.ColumnAt | src/view/spec.rs:55-73 | a column aborts exactly when the spectrum is empty; otherwise it reads the bin `SpecIdx`, which lies in the first half of the spectrum, a silent bin gives the -1000 level, `specy` lies in `[0, graph_height]`, and the alpha is computed from that `specy` |
| Spectrogram.ColumnAbortsOnlyWhenEmpty | src/view/spec.rs:57-58 | a column aborts only on an empty spectrum |
| Spectrogram.SilenceIsSentinel | src/view/spec.rs:58-63 | a silent spectrum puts every column at the sentinel level |
| Spectrogram.Columns | src/view/spec.rs:53-84 | the loop over columns succeeds exactly when every column does, and then holds each column's values in order |
| Spectrogram.GraphYInGraph | src/view/spec.rs:80-83 | with a consistent layout, the graph's y `water_height + specy` lies in `[water_height, height]` |
| Spectrogram.GraphY | src/view/spec.rs:80 | computes `water_height as i32 + specy` with `i32` wrap-around; no contract of its own, its property is `Spectrogram.GraphYInGraph` |
| Spectrogram.WaterfallDot | src/view/spec.rs:68-75 | computes the point `(x, water_y)` in the channel colour with the column's alpha, blended additively; its placement is stated by `Spectrogram.ChannelDraws` and `RenderDots` |
| Spectrogram.GraphLine | src/view/spec.rs:77-82 | computes the line from the previous column's graph y to this column's, in the restored channel colour; its placement is stated by `Spectrogram.ChannelDraws` and `GraphConnected` |
| Spectrogram.Draws | src/view/spec.rs:26-84 | a frame has `1 + 2*(2*width-1)` commands: the black fill of the rectangle from `water_y` first, then column `x`'s waterfall dot in green within the left channel's commands and in blue within the right channel's, which follow |
| Spectrogram.ChannelDraws | src/view/spec.rs:52-84 | one channel issues `2*width-1` commands: the waterfall dot of column `x` at row `water_y` in the channel colour with the column's alpha, and for `x > 0` a line from the previous column's y in the restored colour |
| Spectrogram.GraphConnected | src/view/spec.rs:77-83 | each graph line starts where the previous one ended |
| Spectrogram.Render | src/view/spec.rs:16-89 | a successful frame has `1 + 2*(2*width-1)` commands and starts with a black fill of the rectangle from `water_y` |
| Spectrogram.RenderAbortsOnlyOnEmptySpectrum | src/view/spec.rs:43-58 | a frame aborts exactly when there are columns to draw and one channel's spectrum is empty |
| Spectrogram.RenderParts | src/view/spec.rs:43-85 | with no columns or two non-empty spectra the frame succeeds, and its commands are the clear followed by the left channel's and then the right channel's commands, built from each channel's columns |
| Spectrogram.RenderDots | src/view/spec.rs:43-76 | with two non-empty spectra the frame succeeds, and column `x`'s waterfall dot carries the alpha that column computes, green for the left channel and blue for the right |
| Shader.KernelUsize | shaders/src/lib.rs:48 | a kernel `usize` result is below `2^32` and equals the exact value whenever that fits |
| Shader.KernelSpecIdxAgrees | shaders/src/lib.rs:47 | the kernel's `specidx`, cast to a 32-bit `usize`, is the CPU's bin index whenever that fits in 32 bits |
| Shader.ReadIndex | shaders/src/lib.rs:48 | computes `spectrum_length * chan + specidx` in 32-bit `usize` arithmetic; no contract of its own, its properties are `Shader.ReadsChannelBin` and `ReadsOwnChannel` |
| Shader.KernelSpecIdx | shaders/src/lib.rs:47 | computes the kernel's `specidx`, the warped bin cast to a 32-bit `usize`; its property is `Shader.KernelSpecIdxAgrees` |
| Shader.Quarter | shaders/src/lib.rs:60 | column `x` modulo `2^30`: below `2^30`, equal to `x` below it, and `x * 4` wrapped to 32 bits is `4 * Quarter(x)` |
| Shader.SlotStart | shaders/src/lib.rs:60 | the slice start is `wd_offset as usize + x as usize * 4` with both operations wrapped to 32 bits |
| Shader.QuarterNext | shaders/src/lib.rs:60 | for `(x+1)` as a `u32` sum, the next column's quarter is this one's plus one, wrapping to 0 after `2^30 - 1` |
| Shader.SlotEnd | shaders/src/lib.rs:60 | the slice end is `wd_offset as usize + (x+1) as usize * 4`, with the `u32` sum and both `usize` operations wrapped to 32 bits; whenever it is not below the start `wd_offset + x*4`, the slice is exactly four bytes |
| Shader.ChannelOffset | shaders/src/lib.rs:61 | `1 - chan + 1` in 32-bit `usize` arithmetic is `2 - chan` for `chan <= 2` and `2^32 + 2 - chan` otherwise, so `u32::MAX` gives 3 |
| Shader.SpectrogramLine | shaders/src/lib.rs:44-62 | an invocation succeeds exactly when the read is in bounds, the slice bounds are in order and inside the buffer, and the channel's offset lies inside the slice; then it changes at most the one byte at slice start plus `ChannelOffset(chan)` |
| Shader.MatchesCpu | shaders/src/lib.rs:44-62 | for a view column and channel 0 or 1, with a spectrum buffer of at most `isize::MAX` bins, the kernel writes exactly the CPU spectrogram's alpha for that column, into byte `g` (chan 0) or `b` (chan 1); it aborts exactly when the pixel's slice is not four bytes inside the buffer |
| Shader.CpuAlpha | shaders/src/lib.rs:47-59 | the CPU column's alpha is the alpha of the bin the invocation reads |
| Shader.ReadsChannelBin | shaders/src/lib.rs:47-48 | the bin read is the CPU bin `specidx` of the channel's own spectrum |
| Shader.LineWrite | shaders/src/lib.rs:48-61 | with the read in bounds, the invocation writes `(1 - specy/graph_height)*255`, with `specy` from the level of the bin read, at the channel's byte of the pixel, exactly when the slice is four bytes inside the buffer |
| Shader.ReadsOwnChannel | shaders/src/lib.rs:47-48 | when both channels' blocks fit in `isize::MAX`, the 32-bit read index is the exact `spectrum_length*chan + specidx` and lies in the first half of channel `chan`'s block |
| Shader.ChannelBytes | shaders/src/lib.rs:16-21 | channel 0 selects byte 2 (`g`), channel 1 byte 1 (`b`), channel 2 byte 0 (`a`), and `u32::MAX` wraps to byte 3 (`r`); every channel from 3 to `u32::MAX - 1` aborts |
| Shader.WriteInsideSlot | shaders/src/lib.rs:60-61 | a successful write comes from channel 0 to 2 or `u32::MAX`, lands inside the pixel's four-byte slice, and the slice lies inside the buffer |
| Shader.WritePos | shaders/src/lib.rs:60-61 | computes the buffer index a channel 0 or 1 invocation writes, slice start plus `ChannelOffset(chan)`; its properties are `Shader.WritesDisjoint` and `WrappedSlotsCollide` |
| Shader.WritesDisjoint | shaders/src/lib.rs:60-61 | different (column, channel) pairs with channel 0 or 1 write different bytes, while `wd_offset + 4*(x+1)` stays within `2^32` |
| Shader.WrappedSlotsCollide | shaders/src/lib.rs:60-61 | past that range the slices wrap: columns 0 and `2^30` write the same byte |
| Audio.Initial | src/main.rs:94-103 | both channels start alike, with an 800-sample scope buffer and a 1024-sample window buffer, all zeros |
| Audio.Channel | src/main.rs:115 | channel `offs` of a block is element `offs` of every two-sample chunk |
| Audio.Deinterleave | src/main.rs:114-115 | the scratch-filling loop yields exactly channel `offs` of the block |
| Audio.SplitInterleave | src/main.rs:112-115 | splitting an interleaved pair of channels gives back the left (even) and right (odd) channel |
| Audio.InterleaveSplit | src/main.rs:112-115 | re-interleaving the two channels of a block gives back the block |
| Audio.BlockLength | src/main.rs:111 | `frames * 2` as a `usize` product: even, exact up to `usize::MAX`, wrapped by `2^64` beyond |
| Audio.Callback | src/main.rs:109-119 | aborts exactly when `len(buffer)` differs from the wrapping product `frames * 2`; otherwise each scope buffer keeps its size and holds its newest samples, and the window buffers are untouched |
| Audio.CallbackWrappedFrameCount | src/main.rs:111 | `2^63 + 1` frames pass the check with a block of two samples, because the product wraps |
| Audio.CallbackTwice | src/main.rs:109-119 | two callbacks equal one callback on the two blocks concatenated, when the combined block fits in a slice |
| Audio.CallbackRoutesChannels | src/main.rs:112-116 | an interleaved block pushes the left samples into the left scope and the right samples into the right |
| Audio.ResizeScope | src/main.rs:183-185 | after the per-frame check the scope size equals the width, the leading samples are kept, and nothing changes when the size already matched |
| Audio.FrameChannel | src/main.rs:159-185 | one locked section of a frame draws that channel's trace in its colours, resizes only that channel's scope buffer to the width, and leaves the other channel and the windows untouched |
| Audio.Frame | src/main.rs:142-186 | a frame with no callback between its two locked sections draws what `Scope::render` draws for the two scope buffers and leaves both at the surface width, windows untouched |
| Audio.CallbackBetweenChannels | src/main.rs:159-185 | a callback between the two locked sections is missed by the left trace and seen by the right one, which is drawn from the pushed buffer |
| Audio.FrameKeepsSteadyState | src/main.rs:183-185 | at an unchanged width a frame leaves the state as it was |
| Audio.CallbackKeepsFrameWidth | src/main.rs:183-185 | callbacks after a frame keep both scope buffers at the frame's width |

## Left out

- src/vulkan.rs: Vulkan set-up, the compute dispatch and its worker thread. These are foreign calls and concurrency.
- From src/main.rs:
  - argument parsing;
  - PortAudio device listing and stream set-up;
  - the SDL window and event loop;
  - frame pacing with clocks and sleeps;
  - the `Mutex` itself. Each locked section is one atomic transition: a whole callback, or one channel of a frame (`Audio.FrameChannel`).
- src/main.rs:35-38 is a textual duplicate of `normalize_centered`, and src/view/vec.rs:2 imports it from `super::scope`, a path of another revision. All these uses are modelled by the one `View.NormalizeCentered` of src/view.rs:18-21.
- The spectrogram's waterfall scroll (src/view/spec.rs:30-41) is an SDL surface blit. `present()` and the other side effects on the canvas are also left out. Only the computed commands are modelled.
- shaders/src/lib.rs:63-69 refers to names that do not exist in the kernel. It is not part of the kernel's computation.
- Invocation scheduling on the GPU is left out. Each invocation is an independent function of `(x, chan)`. `Shader.WritesDisjoint` shows that invocations for different columns or channels never write the same byte while the slices do not wrap.
- `f32` rounding: the model computes in exact reals. `powf`, `log10` and the complex magnitude are not computed but constrained by `Spectrogram.Lawful`.
- The FFT producing the spectrum is not in the modelled files; spectra are inputs.
- `Window::apply` on the `dyn Window` objects of `windows()`: the only window is `GenericWindow`, so the trait object is not modelled separately.
- View.InSurface: stated for heights up to `i32::MAX`. Above that, the final `i32` subtraction can wrap.
- Vectorscope.PlotXInSurface, Vectorscope.PlotXMonotone: stated for left samples in `[-1, 1]` and widths up to `i32::MAX`, for the same reason.
- Audio.CallbackTwice, Audio.CallbackRoutesChannels: stated for blocks whose total length fits in `usize`, as any slice does; the concatenation of two blocks longer than that is not a slice.
- Spectrogram.SpecYClamp: stated for `graph_height <= i32::MAX`. Above that, the cap `graph_height as i32` is negative, so the clamp gives 0 for every raw value.
- Spectrogram.SpecYAntitone: stated for a `range` of at least zero. Only a negative `range` reverses the order.
- Shader.WritesDisjoint: stated only while `wd_offset + 4*(x+1)` stays within `2^32` for both columns. Beyond that the 32-bit slices wrap and columns `2^30` apart write the same byte (`Shader.WrappedSlotsCollide`).
- Shader.MatchesCpu, Shader.CpuAlpha, Shader.ReadsChannelBin, Shader.ReadsOwnChannel: stated for a spectrum buffer of at most `isize::MAX` bins, the largest slice on the 32-bit target. That keeps the read index `spectrum_length*chan + specidx` free of wrap-around.
- Spectrogram.GraphYInGraph, Spectrogram.ClearedRectReachesBottom: stated for a consistent layout (`1 <= water_height <= height`, height up to `i32::MAX`). Outside it the `u32` arithmetic wraps, as `Spectrogram.LayoutConsistent` shows.
- Shader.SpectrogramLine: the kernel is modelled for `width > 0` only. With width 0, `x / 0` is an infinity or a NaN, and the model does not follow that.
- Numeric.F32DivToI32: a zero `range` is taken as `+0.0`, so a `-0.0` range, which flips the sign of the infinity, is not distinguished.
