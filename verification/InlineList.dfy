/**
 Inline lists: elements written one after another by WriteList and read by ListAt, At, All, Indexed
 and Payloads.  The writer aligns every element to eight bytes, after all that the one before it left,
 while the reader steps by the stride, so the two agree exactly when there is at most one element, or the
 stride is a multiple of eight and no element but the last leaves more than its stride.
 */
module InlineLists {
  import opened ByteStrings
  import opened WireSpec
  import opened WireReader
  import opened Trees
  import opened TreeWriting

  // ---- writing ----

  /** Each element is all the bytes its init closure leaves: its slot, and what it appends. */
  function AppendAll(s: Bytes, elems: seq<Bytes>): (r: Bytes)
    ensures |s| <= |r|
  {
    if elems == [] then s
    else AlignS(AppendAll(s, elems[..|elems| - 1])) + elems[|elems| - 1]
  }

  function WriteListS(s: Bytes, at: nat, size: nat, off: nat, elems: seq<Bytes>): Bytes
  {
    var t := AppendAll(ReserveS(s, at, size), elems);
    if elems == [] then SetListS(t, at, off, 0, 0)
    else SetListS(t, at, off, |AlignS(ReserveS(s, at, size))|, |elems|)
  }

  // ---- reading ----

  datatype List = List(data: Bytes, offset: nat, length: nat)

  function InlineListAt(v: View, off: nat, stride: nat): Option<List>
  {
    match ListStride(v.data, v.off, off, stride)
    case None => None
    case Some(l) => Some(List(v.data, if l.length == 0 then 0 else l.offset, l.length))
  }

  /** List.At: the payload of element i, or None for the zero view. */
  function At(l: List, i: nat, stride: nat): Option<Bytes>
  {
    var off := l.offset + i * stride;
    if i >= l.length || off + stride > |l.data| then None else Some(l.data[off..off + stride])
  }

  /** Whole elements inside the data: the iterators stop at the first that is not. */
  predicate AllFit(l: List, stride: nat)
  {
    forall i :: 0 <= i < l.length ==> At(l, i, stride).Some?
  }

  /** A view of each element, at its place in the data. */
  method All(l: List, stride: nat) returns (out: seq<View>)
    ensures forall i :: 0 <= i < |out| ==>
              out[i] == View(l.data, l.offset + i * stride, stride) && At(l, i, stride).Some?
    ensures |out| <= l.length && (|out| < l.length ==> At(l, |out|, stride).None?)
    ensures AllFit(l, stride) ==> |out| == l.length
  {
    out := [];
    for i := 0 to l.length
      invariant |out| == i
      invariant forall k :: 0 <= k < i ==>
                  out[k] == View(l.data, l.offset + k * stride, stride) && At(l, k, stride).Some?
    {
      var off := l.offset + i * stride;
      var end := off + stride;
      if end > |l.data| {
        assert At(l, i, stride).None?;
        return;
      }
      out := out + [View(l.data, off, stride)];
    }
  }

  /** Only the payload slices. */
  method Payloads(l: List, stride: nat) returns (out: seq<Bytes>)
    ensures forall i :: 0 <= i < |out| ==> At(l, i, stride) == Some(out[i])
    ensures |out| <= l.length && (|out| < l.length ==> At(l, |out|, stride).None?)
    ensures AllFit(l, stride) ==> |out| == l.length
  {
    out := [];
    for i := 0 to l.length
      invariant |out| == i && forall k :: 0 <= k < i ==> At(l, k, stride) == Some(out[k])
    {
      var off := l.offset + i * stride;
      var end := off + stride;
      if end > |l.data| {
        assert At(l, i, stride).None?;
        return;
      }
      out := out + [l.data[off..end]];
    }
  }

  /** Each index with its element's view. */
  method Indexed(l: List, stride: nat) returns (out: seq<(nat, View)>)
    ensures forall i :: 0 <= i < |out| ==>
              out[i] == (i, View(l.data, l.offset + i * stride, stride)) && At(l, i, stride).Some?
    ensures |out| <= l.length && (|out| < l.length ==> At(l, |out|, stride).None?)
    ensures AllFit(l, stride) ==> |out| == l.length
  {
    out := [];
    for i := 0 to l.length
      invariant |out| == i
      invariant forall k :: 0 <= k < i ==>
                  out[k] == (k, View(l.data, l.offset + k * stride, stride)) && At(l, k, stride).Some?
    {
      var off := l.offset + i * stride;
      var end := off + stride;
      if end > |l.data| {
        assert At(l, i, stride).None?;
        return;
      }
      out := out + [(i, View(l.data, off, stride))];
    }
  }

  /** A list ListAt grants for a real stride has Len() whole elements. */
  lemma {:induction false} GrantedListsFit(v: View, off: nat, stride: nat)
    requires stride > 0 && InlineListAt(v, off, stride).Some?
    ensures AllFit(InlineListAt(v, off, stride).value, stride)
  {
    ListStrideIsList(v.data, v.off, off, stride);
  }

  // ---- where the elements are ----

  function RoundUp(n: nat): (r: nat)
    ensures n <= r && r % 8 == 0 && r < n + 8
  {
    n + Padding(n)
  }

  predicate Sized(elems: seq<Bytes>, lens: seq<nat>)
  {
    |elems| == |lens| && forall k :: 0 <= k < |lens| ==> |elems[k]| == lens[k]
  }

  /** Every element has its slot. */
  predicate Slotted(stride: nat, lens: seq<nat>)
  {
    forall k :: 0 <= k < |lens| ==> stride <= lens[k]
  }

  /** The position of element k. */
  function Place(base: nat, lens: seq<nat>, k: nat): (p: nat)
    requires k <= |lens|
    ensures base <= p && (base % 8 == 0 ==> p % 8 == 0)
  {
    if k == 0 then base
    else
      Mod8Sum(Place(base, lens, k - 1), RoundUp(lens[k - 1]));
      Place(base, lens, k - 1) + RoundUp(lens[k - 1])
  }

  lemma {:induction false} Mod8Sum(a: nat, b: nat)
    ensures a % 8 == 0 && b % 8 == 0 ==> (a + b) % 8 == 0
  {
  }

  lemma {:induction false} PlacePrefix(base: nat, lens: seq<nat>, n: nat, k: nat)
    requires k <= n <= |lens|
    ensures Place(base, lens[..n], k) == Place(base, lens, k)
    decreases k
  {
    hide RoundUp;
    if k > 0 {
      PlacePrefix(base, lens, n, k - 1);
    }
  }

  /** The writer is never before the reader. */
  lemma {:induction false} PlaceAtLeast(base: nat, stride: nat, lens: seq<nat>, k: nat)
    requires Slotted(stride, lens) && k <= |lens|
    ensures Strided(base, k, stride) <= Place(base, lens, k)
    decreases k
  {
    hide Strided;
    StridedNext(base, if k == 0 then 0 else k - 1, stride);
    if k > 0 {
      PlaceAtLeast(base, stride, lens, k - 1);
    }
  }

  lemma {:induction false} AlignedAfter(base: nat, n: nat)
    requires base % 8 == 0
    ensures base + n + Padding(base + n) == base + RoundUp(n)
  {
  }

  lemma {:induction false} AppendedLength(s: Bytes, elems: seq<Bytes>, lens: seq<nat>)
    requires Sized(elems, lens)
    ensures |AlignS(AppendAll(s, elems))| == Place(|AlignS(s)|, lens, |lens|)
    ensures lens != [] ==>
      |AppendAll(s, elems)| == Place(|AlignS(s)|, lens, |lens| - 1) + lens[|lens| - 1]
    decreases |lens|
  {
    hide Padding, RoundUp;
    if lens != [] {
      var n := |lens| - 1;
      AppendedLength(s, elems[..n], lens[..n]);
      PlacePrefix(|AlignS(s)|, lens, n, n);
      AlignedAfter(Place(|AlignS(s)|, lens, n), lens[n]);
    }
  }

  /** Appending more elements moves nothing. */
  lemma {:induction false} AppendedPrefix(s: Bytes, elems: seq<Bytes>, k: nat)
    requires k <= |elems|
    ensures AppendAll(s, elems[..k]) <= AppendAll(s, elems)
    decreases |elems|
  {
    if k == |elems| {
      assert elems[..k] == elems;
    } else {
      var n := |elems| - 1;
      assert elems[..n][..k] == elems[..k];
      AppendedPrefix(s, elems[..n], k);
    }
  }

  lemma {:induction false} AppendedStays(s: Bytes, elems: seq<Bytes>)
    ensures s <= AppendAll(s, elems)
  {
    AppendedPrefix(s, elems, 0);
    assert elems[..0] == [];
  }

  /** Element k is at its place, and what is between its end and the next element is zero. */
  ghost predicate Holds(d: Bytes, base: nat, lens: seq<nat>, k: nat, e: Bytes)
    requires k < |lens|
  {
    var p := Place(base, lens, k);
    && p + |e| <= |d| && d[p..p + |e|] == e
    && (k + 1 < |lens| ==>
          Place(base, lens, k + 1) <= |d| && forall q :: p + |e| <= q < Place(base, lens, k + 1) ==> d[q] == 0)
  }

  lemma {:induction false} ElementPlaced(s: Bytes, elems: seq<Bytes>, lens: seq<nat>, k: nat)
    requires Sized(elems, lens) && k < |lens|
    ensures Holds(AppendAll(s, elems), |AlignS(s)|, lens, k, elems[k])
  {
    hide Place, AlignS;
    var r := AppendAll(s, elems);
    var base := |AlignS(s)|;
    AppendedPrefix(s, elems, k + 1);
    var t := AppendAll(s, elems[..k + 1]);
    assert elems[..k + 1][..k] == elems[..k];
    var a := AlignS(AppendAll(s, elems[..k]));
    assert t == a + elems[k];
    AppendedLength(s, elems[..k], lens[..k]);
    PlacePrefix(base, lens, k, k);
    assert r[|a|..|a| + |elems[k]|] == t[|a|..|a| + |elems[k]|] == elems[k];
    if k + 1 < |lens| {
      PaddedWithZeros(s, elems, lens, k);
    }
  }

  lemma {:induction false} PaddedWithZeros(s: Bytes, elems: seq<Bytes>, lens: seq<nat>, k: nat)
    requires Sized(elems, lens) && k + 1 < |lens|
    ensures var (r, base) := (AppendAll(s, elems), |AlignS(s)|);
      && Place(base, lens, k + 1) <= |r|
      && forall q :: Place(base, lens, k) + lens[k] <= q < Place(base, lens, k + 1) ==> r[q] == 0
  {
    hide Place, Padding;
    var (r, base) := (AppendAll(s, elems), |AlignS(s)|);
    var t := AppendAll(s, elems[..k + 1]);
    AppendedPrefix(s, elems, k + 2);
    assert elems[..k + 2][..k + 1] == elems[..k + 1];
    assert AlignS(t) <= AppendAll(s, elems[..k + 2]) <= r;
    AppendedLength(s, elems[..k + 1], lens[..k + 1]);
    PlacePrefix(base, lens, k + 1, k + 1);
    PlacePrefix(base, lens, k + 1, k);
    forall q | |t| <= q < |AlignS(t)| ensures r[q] == 0 { assert r[q] == AlignS(t)[q]; }
  }

  // ---- where a list is, in a message ----

  /** The slot at p leads to the elements, which are after lo. */
  ghost predicate HoldsList(d: Bytes, p: nat, lo: nat, elems: seq<Bytes>, lens: seq<nat>)
  {
    Sized(elems, lens) && p + 8 <= lo <= |d| &&
    if elems == [] then U32At(d, p) == 0
    else
      var base := p + I32(U32At(d, p));
      && lo <= base && U32At(d, p + 4) == |elems|
      && forall k :: 0 <= k < |elems| ==> Holds(d, base, lens, k, elems[k])
  }

  /** WriteList leaves its elements where its slot says, and touches nothing else. */
  lemma {:induction false} ListWritten(s: Bytes, at: nat, size: nat, off: nat, elems: seq<Bytes>, lens: seq<nat>)
    requires HEADER <= at && at + size <= |s| && off + 8 <= size && Sized(elems, lens) && Slotted(1, lens)
    requires |WriteListS(s, at, size, off, elems)| < TWO31
    ensures var r := WriteListS(s, at, size, off, elems);
      OnlySlot(s, r, at + off, 8) && HoldsList(r, at + off, at + size, elems, lens)
  {
    hide AppendAll, Holds, SetListS, AlignS, Slotted;
    assert ReserveS(s, at, size) == s;
    var t := AppendAll(s, elems);
    AppendedStays(s, elems);
    if elems == [] {
      EmptyList(t, at, off);
    } else {
      AlignsUp(s);
      BaseInside(s, elems, lens);
      ListPatched(t, at, off, |AlignS(s)|, |elems|);
      forall k | 0 <= k < |elems|
        ensures Holds(WriteListS(s, at, size, off, elems), |AlignS(s)|, lens, k, elems[k])
      {
        ElementPlaced(s, elems, lens, k);
        HoldsKept(t, WriteListS(s, at, size, off, elems), at + off, |AlignS(s)|, lens, k, elems[k]);
      }
    }
  }

  lemma {:induction false} AlignsUp(s: Bytes)
    ensures |s| <= |AlignS(s)|
  {
  }

  lemma {:induction false} BaseInside(s: Bytes, elems: seq<Bytes>, lens: seq<nat>)
    requires Sized(elems, lens) && Slotted(1, lens) && lens != []
    ensures |AlignS(s)| + |elems| <= |AppendAll(s, elems)|
  {
    hide Place, AppendAll, AlignS;
    AppendedLength(s, elems, lens);
    PlaceAtLeast(|AlignS(s)|, 1, lens, |lens| - 1);
  }

  lemma {:induction false} HoldsKept(t: Bytes, r: Bytes, slot: nat, base: nat, lens: seq<nat>, k: nat, e: Bytes)
    requires k < |lens| && Holds(t, base, lens, k, e) && OnlySlot(t, r, slot, 8) && slot + 8 <= base
    ensures Holds(r, base, lens, k, e)
  {
    hide Place;
    var p := Place(base, lens, k);
    assert r[p..p + |e|] == t[p..p + |e|];
  }

  // ---- round trip ----

  /** Every element's slot reads back, and the length is the number of elements. */
  ghost predicate ReadsBack(d: Bytes, at: nat, size: nat, off: nat, stride: nat, elems: seq<Bytes>)
    requires forall k :: 0 <= k < |elems| ==> stride <= |elems[k]|
  {
    match InlineListAt(View(d, at, size), off, stride)
    case None => elems == []
    case Some(l) =>
      l.length == |elems| && forall i :: 0 <= i < |elems| ==> At(l, i, stride) == Some(elems[i][..stride])
  }

  /** The element after one of this length follows it at the stride. */
  predicate Exact(stride: nat, len: nat)
  {
    stride % 8 == 0 && len == stride
  }

  predicate InStep(stride: nat, lens: seq<nat>)
  {
    forall k :: 0 <= k < |lens| - 1 ==> Exact(stride, lens[k])
  }

  /** Element j is the first that the next does not follow at the stride. */
  predicate Displaces(stride: nat, lens: seq<nat>, j: nat)
  {
    j + 1 < |lens| && !Exact(stride, lens[j]) && forall k :: 0 <= k < j ==> Exact(stride, lens[k])
  }

  lemma {:induction false} FirstDisplaced(stride: nat, lens: seq<nat>, n: nat) returns (j: nat)
    requires !InStep(stride, lens) && n < |lens|
    requires forall k :: 0 <= k < n ==> Exact(stride, lens[k])
    ensures Displaces(stride, lens, j)
    decreases |lens| - n
  {
    hide Exact;
    j := n;
    if n + 1 < |lens| && Exact(stride, lens[n]) {
      j := FirstDisplaced(stride, lens, n + 1);
    }
  }

  lemma {:induction false} WholeStride(stride: nat, len: nat)
    requires Exact(stride, len)
    ensures RoundUp(len) == stride
  {
  }

  /** Up to there writer and reader are in the same place. */
  lemma {:induction false} PlacedInStep(base: nat, stride: nat, lens: seq<nat>, k: nat)
    requires k <= |lens| && forall i :: 0 <= i < k ==> Exact(stride, lens[i])
    ensures Place(base, lens, k) == Strided(base, k, stride)
    decreases k
  {
    hide RoundUp, Strided, Exact;
    StridedNext(base, if k == 0 then 0 else k - 1, stride);
    if k > 0 {
      PlacedInStep(base, stride, lens, k - 1);
      WholeStride(stride, lens[k - 1]);
    }
  }

  /** The slot grants the list, whole. */
  lemma {:induction false} Granted(d: Bytes, at: nat, size: nat, off: nat, lo: nat, stride: nat, elems: seq<Bytes>,
                                   lens: seq<nat>)
    requires HoldsList(d, at + off, lo, elems, lens) && elems != [] && HEADER <= at && stride > 0
    requires Slotted(stride, lens)
    ensures InlineListAt(View(d, at, size), off, stride) ==
      Some(List(d, at + off + I32(U32At(d, at + off)), |elems|))
  {
    hide U32At, Place;
    var (base, n) := (at + off + I32(U32At(d, at + off)), |elems|);
    assert Holds(d, base, lens, n - 1, elems[n - 1]);
    PlaceAtLeast(base, stride, lens, n - 1);
    StridedNext(base, n - 1, stride);
    assert n * stride <= |d| - base && Deref(d, at + off) == Some(base);
  }

  lemma {:induction false} HeldReads(d: Bytes, at: nat, size: nat, off: nat, lo: nat, stride: nat, elems: seq<Bytes>,
                                     lens: seq<nat>)
    requires HoldsList(d, at + off, lo, elems, lens) && HEADER <= at && stride > 0
    requires Slotted(stride, lens) && InStep(stride, lens)
    ensures ReadsBack(d, at, size, off, stride, elems)
  {
    hide Place, U32At, I32, At, Strided, Exact, InlineListAt;
    if elems == [] {
      EmptyHeld(d, at, size, off, lo, stride, lens);
    } else {
      Granted(d, at, size, off, lo, stride, elems, lens);
      var base := at + off + I32(U32At(d, at + off));
      forall k | 0 <= k < |elems| ensures At(List(d, base, |elems|), k, stride) == Some(elems[k][..stride])
      {
        assert Holds(d, base, lens, k, elems[k]);
        PlacedInStep(base, stride, lens, k);
        SlotOfElement(d, Strided(base, k, stride), stride, elems[k]);
        AtStrided(List(d, base, |elems|), k, stride);
      }
    }
  }

  lemma {:induction false} EmptyHeld(d: Bytes, at: nat, size: nat, off: nat, lo: nat, stride: nat, lens: seq<nat>)
    requires HoldsList(d, at + off, lo, [], lens)
    ensures InlineListAt(View(d, at, size), off, stride).None?
  {
    hide U32At;
  }

  lemma {:induction false} AtStrided(l: List, i: nat, stride: nat)
    ensures var p := Strided(l.offset, i, stride);
      At(l, i, stride) == if i >= l.length || p + stride > |l.data| then None else Some(l.data[p..p + stride])
  {
  }

  lemma {:induction false} SlotOfElement(d: Bytes, p: nat, stride: nat, e: Bytes)
    requires stride <= |e| && p + |e| <= |d| && d[p..p + |e|] == e
    ensures d[p..p + stride] == e[..stride]
  {
  }

  /** Where the reader looks for the element after a displacing one, it finds its tail, or padding. */
  function Found(stride: nat, e: Bytes): int
  {
    if |e| > stride then e[stride] else 0
  }

  lemma {:induction false} HeldFails(d: Bytes, at: nat, size: nat, off: nat, lo: nat, stride: nat, elems: seq<Bytes>,
                                     lens: seq<nat>, j: nat)
    requires HoldsList(d, at + off, lo, elems, lens) && HEADER <= at && stride > 0 && Slotted(stride, lens)
    requires Displaces(stride, lens, j) && elems[j + 1][0] != Found(stride, elems[j])
    ensures !ReadsBack(d, at, size, off, stride, elems)
  {
    hide Place, U32At, I32, InlineListAt, At, Strided, Found, Exact;
    Granted(d, at, size, off, lo, stride, elems, lens);
    var base := at + off + I32(U32At(d, at + off));
    FoundThere(d, base, stride, elems, lens, j);
    AtStrided(List(d, base, |elems|), j + 1, stride);
    var q := Strided(base, j + 1, stride);
    if q + stride <= |d| {
      assert d[q..q + stride][0] == d[q];
    }
    assert At(List(d, base, |elems|), j + 1, stride) != Some(elems[j + 1][..stride]);
  }

  lemma {:induction false} FoundThere(d: Bytes, base: nat, stride: nat, elems: seq<Bytes>, lens: seq<nat>, j: nat)
    requires Sized(elems, lens) && Slotted(stride, lens) && Displaces(stride, lens, j) && stride > 0
    requires Holds(d, base, lens, j, elems[j])
    ensures Strided(base, j + 1, stride) < |d| && d[Strided(base, j + 1, stride)] == Found(stride, elems[j])
  {
    hide Strided;
    PlacedInStep(base, stride, lens, j);
    StridedNext(base, j, stride);
    var (p, e) := (Place(base, lens, j), elems[j]);
    if |e| > stride {
      assert d[p..p + |e|][stride] == e[stride];
    } else {
      NextIsPadded(stride);
      assert Place(base, lens, j + 1) == p + RoundUp(stride);
    }
  }

  lemma {:induction false} NextIsPadded(stride: nat)
    ensures stride % 8 != 0 ==> RoundUp(stride) > stride
  {
  }

  ghost predicate Content(lens: seq<nat>, elems: seq<Bytes>)
  {
    Sized(elems, lens)
  }

  /** Slots of ones, and after them twos. */
  function Telling(stride: nat, lens: seq<nat>): (elems: seq<Bytes>)
    requires Slotted(stride, lens)
    ensures Sized(elems, lens)
  {
    seq(|lens|, k requires 0 <= k < |lens| => seq(lens[k], i => if i < stride then 1 else 2))
  }

  /**
   Exactly when inline lists round-trip: for elements that leave so many bytes each, all contents read
   back if and only if there is at most one, or the stride is a multiple of eight and no element but the
   last leaves more than its stride.
   */
  lemma {:induction false} InlineRoundTrip(s: Bytes, at: nat, size: nat, off: nat, stride: nat, lens: seq<nat>)
    requires HEADER <= at && at + size <= |s| && off + 8 <= size && stride > 0 && Slotted(stride, lens)
    requires Place(|AlignS(s)|, lens, |lens|) < TWO31
    ensures (forall elems | Content(lens, elems) ::
               ReadsBack(WriteListS(s, at, size, off, elems), at, size, off, stride, elems))
            <==> InStep(stride, lens)
  {
    hide Place, WriteListS, ReadsBack, AlignS, Displaces, Exact;
    if InStep(stride, lens) {
      forall elems | Content(lens, elems)
        ensures ReadsBack(WriteListS(s, at, size, off, elems), at, size, off, stride, elems)
      {
        WrittenLength(s, at, size, off, elems, lens);
        ListWritten(s, at, size, off, elems, lens);
        HeldReads(WriteListS(s, at, size, off, elems), at, size, off, at + size, stride, elems, lens);
      }
    } else {
      var j := FirstDisplaced(stride, lens, 0);
      var elems := Telling(stride, lens);
      assert Content(lens, elems);
      WrittenLength(s, at, size, off, elems, lens);
      ListWritten(s, at, size, off, elems, lens);
      TellingDiffers(stride, lens, j);
      HeldFails(WriteListS(s, at, size, off, elems), at, size, off, at + size, stride, elems, lens, j);
    }
  }

  lemma {:induction false} TellingDiffers(stride: nat, lens: seq<nat>, j: nat)
    requires Slotted(stride, lens) && stride > 0 && Displaces(stride, lens, j)
    ensures j + 1 < |lens| && Telling(stride, lens)[j + 1][0] != Found(stride, Telling(stride, lens)[j])
  {
  }

  lemma {:induction false} WrittenLength(s: Bytes, at: nat, size: nat, off: nat, elems: seq<Bytes>, lens: seq<nat>)
    requires at + size <= |s| && off + 8 <= size && Sized(elems, lens) && Place(|AlignS(s)|, lens, |lens|) < TWO31
    ensures |WriteListS(s, at, size, off, elems)| < TWO31
  {
    hide LE32, U32, Place;
    assert ReserveS(s, at, size) == s;
    AppendedLength(s, elems, lens);
  }
}
