/**
  The fixed-length sliding window `Fifo<T>`: a vector that always holds the
  `size()` most recently pushed elements, oldest first.

  `T::default()` is passed explicitly as `dflt`.
 */
module Fifos {

  datatype Fifo<T> = Fifo(buf: seq<T>)

  /** `size()`: the number of elements held. */
  function Size<T>(f: Fifo<T>): (n: nat)
    ensures n == |Contents(f)|
  {
    |f.buf|
  }

  /** The `Deref` view: the elements, oldest first. */
  function Contents<T>(f: Fifo<T>): seq<T>
  {
    f.buf
  }

  /** The last `n` elements of `s` (all of `s` when it is shorter). */
  function Newest<T>(n: nat, s: seq<T>): (r: seq<T>)
    ensures |r| == if |s| <= n then |s| else n
    ensures forall i :: 0 <= i < |r| ==> r[i] == s[|s| - |r| + i]
  {
    if |s| <= n then s else s[|s| - n..]
  }

  /** `Fifo::new(sz)`. */
  function New<T>(sz: nat, dflt: T): (f: Fifo<T>)
    ensures Size(f) == sz
    ensures forall i :: 0 <= i < |Contents(f)| ==> Contents(f)[i] == dflt
  {
    Fifo(seq(sz, _ => dflt))
  }

  /**
    `Fifo::push(data)`. A block at least as long as the buffer overwrites it
    with the block's tail; a shorter block shifts the kept elements to the
    front and lands at the back. Either way the buffer ends up holding the
    newest `size()` elements of everything pushed so far.
   */
  function Push<T>(f: Fifo<T>, data: seq<T>): (r: Fifo<T>)
    ensures Size(r) == Size(f)
    ensures Contents(r) == Newest(Size(f), Contents(f) + data)
  {
    var dlen := |data|;
    var blen := |f.buf|;
    var all := f.buf + data;
    if dlen >= blen then
      assert all[|all| - blen..] == data[dlen - blen..];
      Fifo(data[dlen - blen..])
    else
      assert all[dlen..] == f.buf[dlen..] + data;
      Fifo(f.buf[dlen..] + data)
  }

  /**
    `Fifo::resize(n)`, with `Vec::resize` semantics: growing appends
    default elements at the back, shrinking keeps the leading (oldest)
    elements.
   */
  function Resize<T>(f: Fifo<T>, n: nat, dflt: T): (r: Fifo<T>)
    ensures Size(r) == n
    ensures forall i :: 0 <= i < n ==>
              Contents(r)[i] == if i < Size(f) then Contents(f)[i] else dflt
  {
    if n <= |f.buf| then Fifo(f.buf[..n])
    else Fifo(f.buf + seq(n - |f.buf|, _ => dflt))
  }

  /** A block at least as long as the buffer leaves exactly its trailing `size()` elements. */
  lemma PushLongBlock<T>(f: Fifo<T>, data: seq<T>)
    requires |data| >= Size(f)
    ensures Contents(Push(f, data)) == data[|data| - Size(f)..]
  {
  }

  /** A shorter block drops the oldest `|data|` elements and is appended after the rest. */
  lemma PushShortBlock<T>(f: Fifo<T>, data: seq<T>)
    requires |data| < Size(f)
    ensures Contents(Push(f, data)) == Contents(f)[|data|..] + data
  {
  }

  /** Pushing into a zero-size buffer changes nothing. */
  lemma PushIntoEmpty<T>(f: Fifo<T>, data: seq<T>)
    requires Size(f) == 0
    ensures Push(f, data) == f
  {
  }

  /** Taking the newest `n` of a suffix that is itself at least `n` long is taking the newest `n` of the whole. */
  lemma {:induction false} NewestOfSuffix<T>(n: nat, s: seq<T>, k: nat)
    requires k <= |s| && n <= |s| - k
    ensures Newest(n, s[k..]) == Newest(n, s)
  {
    if n < |s| - k {
      assert s[k..][|s| - k - n..] == s[|s| - n..];
    } else {
      assert s[|s| - n..] == s[k..];
    }
  }

  /**
    Two pushes in a row have the effect of one push of the concatenated
    blocks: the buffer is a pure sliding window.
   */
  lemma {:induction false} PushTwice<T>(f: Fifo<T>, a: seq<T>, b: seq<T>)
    ensures Push(Push(f, a), b) == Push(f, a + b)
  {
    var n := Size(f);
    var s := Contents(f) + a;
    var k := |s| - n;
    assert Contents(Push(f, a)) == s[k..];
    assert s[k..] + b == (s + b)[k..];
    NewestOfSuffix(n, s + b, k);
    assert s + b == Contents(f) + (a + b);
  }

  /** On an 8-zero buffer, `push([1,2,3])` then `push([4..10])` leaves `[3..10]`. */
  lemma PushScenario()
    ensures Contents(Push(Push(New(8, 0), [1, 2, 3]), [4, 5, 6, 7, 8, 9, 10]))
            == [3, 4, 5, 6, 7, 8, 9, 10]
  {
    var f := Push(New(8, 0), [1, 2, 3]);
    assert Contents(f) == [0, 0, 0, 0, 0, 1, 2, 3];
  }

  /** Resizing to the current size changes nothing. */
  lemma ResizeSameSize<T>(f: Fifo<T>, dflt: T)
    ensures Resize(f, Size(f), dflt) == f
  {
  }

  /** Growing and then shrinking back restores the buffer. */
  lemma GrowThenShrink<T>(f: Fifo<T>, n: nat, dflt: T)
    requires n >= Size(f)
    ensures Resize(Resize(f, n, dflt), Size(f), dflt) == f
  {
    var g := Resize(f, n, dflt);
    assert Contents(Resize(g, Size(f), dflt)) == Contents(f);
  }

  /**
    The in-place algorithm of `Fifo::push` on a vector: `copy_from_slice` of
    the block's tail, or `copy_within` followed by `copy_from_slice` of the
    block into the vacated tail.
   */
  method PushInPlace<T>(buf: seq<T>, data: seq<T>) returns (r: seq<T>)
    ensures |r| == |buf|
    ensures r == Contents(Push(Fifo(buf), data))
  {
    var a := new T[|buf|](i requires 0 <= i < |buf| => buf[i]);
    var dlen := |data|;
    var blen := a.Length;
    if dlen >= blen {
      var i := 0;
      while i < blen
        invariant 0 <= i <= blen
        invariant forall j :: 0 <= j < i ==> a[j] == data[dlen - blen + j]
      {
        a[i] := data[dlen - blen + i];
        i := i + 1;
      }
      assert a[..] == data[dlen - blen..];
    } else {
      var i := 0;
      while i < blen - dlen
        invariant 0 <= i <= blen - dlen
        invariant forall j :: 0 <= j < i ==> a[j] == buf[j + dlen]
        invariant forall j :: i <= j < blen ==> a[j] == buf[j]
      {
        a[i] := a[i + dlen];
        i := i + 1;
      }
      var k := 0;
      while k < dlen
        invariant 0 <= k <= dlen
        invariant forall j :: 0 <= j < blen - dlen ==> a[j] == buf[j + dlen]
        invariant forall j :: 0 <= j < k ==> a[blen - dlen + j] == data[j]
      {
        a[blen - dlen + k] := data[k];
        k := k + 1;
      }
      assert a[..] == buf[dlen..] + data;
    }
    r := a[..];
  }
}
