/**
  Window weighting curves: the `Window` trait with its default `apply`,
  the `GenericWindow` curve, the rectangular window and the name table.
 */
module Windows {
  import opened Outcome

  /** A weighting curve held as its `shape()`. */
  datatype GenericWindow = GenericWindow(shape: seq<real>)

  /** `size()`: the length of the curve. */
  function Size(w: GenericWindow): (n: nat)
    ensures n == |w.shape|
  {
    |w.shape|
  }

  /** The element-by-element product of `data` with the curve. */
  function Weighted(w: GenericWindow, data: seq<real>): (r: seq<real>)
    requires |w.shape| == |data|
    ensures |r| == |data|
    ensures forall i :: 0 <= i < |data| ==> r[i] == data[i] * w.shape[i]
  {
    seq(|data|, i requires 0 <= i < |data| => data[i] * w.shape[i])
  }

  /**
    `Window::apply`: aborts on a length mismatch, otherwise multiplies every
    datum by its weight in place.
   */
  method Apply(w: GenericWindow, data: seq<real>) returns (r: Result<seq<real>>)
    ensures r.Ok? <==> |w.shape| == |data|
    ensures r.Ok? ==> |r.value| == |data|
    ensures r.Ok? ==> forall i :: 0 <= i < |data| ==> r.value[i] == data[i] * w.shape[i]
    ensures r.Ok? ==> r.value == Weighted(w, data)
  {
    if |w.shape| != |data| {
      return Err(AssertionFailed);
    }
    var out := data;
    var i := 0;
    while i < |out|
      invariant |out| == |data|
      invariant 0 <= i <= |data|
      invariant forall j :: 0 <= j < i ==> out[j] == data[j] * w.shape[j]
      invariant forall j :: i <= j < |data| ==> out[j] == data[j]
    {
      out := out[i := out[i] * w.shape[i]];
      i := i + 1;
    }
    var expected := Weighted(w, data);
    assert |out| == |expected|;
    assert forall j :: 0 <= j < |out| ==> out[j] == expected[j];
    r := Ok(out);
  }

  /** `new_rect(sz)`: the rectangular window, all weights 1. */
  function NewRect(sz: nat): (w: GenericWindow)
    ensures Size(w) == sz
    ensures forall i :: 0 <= i < sz ==> w.shape[i] == 1.0
  {
    GenericWindow(seq(sz, _ => 1.0))
  }

  /** Weighting by the rectangular window leaves the data unchanged. */
  lemma RectIsIdentity(data: seq<real>)
    ensures Weighted(NewRect(|data|), data) == data
  {
  }

  /** `windows()`: the name table of window constructors. */
  function Windows(): (m: map<string, nat -> GenericWindow>)
    ensures m.Keys == {"rect"}
    ensures forall n: nat :: m["rect"](n) == NewRect(n)
  {
    map["rect" := NewRect]
  }
}
