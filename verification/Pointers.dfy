/**
 The setters of the raw builder and the readers of the raw message: what a field was set to is what
 it reads as, wherever the target lies, before the field or after it.
 */
module Pointers {
  import opened ByteStrings
  import opened WireSpec
  import opened WireReader

  /** The distance is one a signed 32-bit offset can hold. */
  predicate Reachable(p: nat, target: nat)
  {
    -TWO31 <= target - p < TWO31
  }

  lemma {:induction false} ScalarSet(s: Bytes, at: nat, off: nat, v: nat, width: nat)
    requires v < Pow256(width)
    ensures Uint(SetFixedS(s, at, off, LE(v, width)), at, off, width) == v
  {
    hide LE, FromLE, Pow256;
    var r := SetFixedS(s, at, off, LE(v, width));
    PutSlice(ReserveS(s, at, off + |LE(v, width)|), at + off, LE(v, width));
    LERoundTrip(v, width);
    assert r[at + off..at + off + width] == LE(v, width);
  }

  /** The slot of an object field set to this target leads to it. */
  lemma {:induction false} SlotLeads(r: Bytes, p: nat, target: nat)
    requires p + 4 <= |r| && r[p..p + 4] == LE32(U32(target - p)) && Reachable(p, target)
    requires HEADER <= target < |r|
    ensures Deref(r, p) == if target == p then None else Some(target)
  {
    hide LE32, U32, I32, U32At;
    WordRoundTrip(r, p, U32(target - p));
    PointerRoundTrip(target - p);
  }

  lemma {:induction false} ZeroLeadsNowhere(r: Bytes, p: nat)
    requires p + 4 <= |r| && r[p..p + 4] == Zeros(4)
    ensures Deref(r, p) == None
  {
    SliceWord(r, p, Zeros(4));
  }

  /** An object field reads as the object it was set to, unless that is the field itself. */
  lemma {:induction false} ObjectSet(s: Bytes, at: nat, off: nat, target: nat)
    requires HEADER <= target < |SetObjectS(s, at, off, target)| && Reachable(at + off, target)
    ensures ObjectAt(SetObjectS(s, at, off, target), at, off) == if target == at + off then None else Some(target)
  {
    hide LE32, U32, Deref;
    var w := LE32(U32(target - (at + off)));
    PutSlice(ReserveS(s, at, off + 4), at + off, w);
    SlotLeads(SetObjectS(s, at, off, target), at + off, target);
  }

  lemma {:induction false} ObjectUnset(s: Bytes, at: nat, off: nat)
    ensures ObjectAt(SetObjectS(s, at, off, 0), at, off) == None
  {
    hide LE32, U32, Deref;
    PutSlice(ReserveS(s, at, off + 4), at + off, Zeros(4));
    ZeroLeadsNowhere(SetObjectS(s, at, off, 0), at + off);
  }

  /** A list field has the words it was set to. */
  lemma {:induction false} ListWords(s: Bytes, at: nat, off: nat, target: nat, n: nat)
    requires target != 0 && 0 < n < TWO32
    ensures var (r, p) := (SetListS(s, at, off, target, n), at + off);
      p + 8 <= |r| && r[p..p + 4] == LE32(U32(target - p)) && U32At(r, p + 4) == n
  {
    hide LE32, U32, U32At, Put, ReserveS;
    var (r, p) := (SetListS(s, at, off, target, n), at + off);
    var (w, k) := (LE32(U32(target - p)), LE32(U32(n)));
    PutSlice(ReserveS(s, at, off + 8), p, w + k);
    TwoWords(r, p, w, k);
    SmallWord(n);
    WordRoundTrip(r, p + 4, n);
  }

  lemma {:induction false} TwoWords(r: Bytes, p: nat, w: Bytes, k: Bytes)
    requires p + 8 <= |r| && |w| == 4 && |k| == 4 && r[p..p + 8] == w + k
    ensures r[p..p + 4] == w && r[p + 4..p + 8] == k
  {
    assert r[p..p + 4] == r[p..p + 8][..4] && r[p + 4..p + 8] == r[p..p + 8][4..];
  }

  lemma {:induction false} SmallWord(n: nat)
    requires n < TWO32
    ensures U32(n) == n
  {
  }

  /** A list fits for a reader of this stride; one that has none only looks at the length. */
  predicate ListFits(size: nat, target: nat, n: nat, stride: nat)
    requires target <= size
  {
    if stride > 0 then n * stride <= size - target else n <= size
  }

  /** A list field reads as the list it was set to, with or without a stride, exactly when that fits. */
  lemma {:induction false} ListSet(s: Bytes, at: nat, off: nat, target: nat, n: nat, stride: nat)
    requires HEADER <= target < |SetListS(s, at, off, target, n)| && Reachable(at + off, target)
    requires target != at + off && 0 < n < TWO32
    ensures var r := SetListS(s, at, off, target, n);
      && ListAt(r, at, off) == (if n <= |r| then Some(RawList(target, n)) else None)
      && ListStride(r, at, off, stride) ==
           (if ListFits(|r|, target, n, stride) then Some(RawList(target, n)) else None)
  {
    hide LE32, U32, U32At, Deref, SetListS;
    ListWords(s, at, off, target, n);
    SlotLeads(SetListS(s, at, off, target, n), at + off, target);
  }

  lemma {:induction false} ListUnset(s: Bytes, at: nat, off: nat, target: nat, n: nat, stride: nat)
    requires target == 0 || n == 0
    ensures var r := SetListS(s, at, off, target, n);
      ListAt(r, at, off) == None && ListStride(r, at, off, stride) == None
  {
    hide LE32, U32, U32At, Deref;
    var (r, p) := (SetListS(s, at, off, target, n), at + off);
    PutSlice(ReserveS(s, at, off + 8), p, Zeros(8));
    assert r[p..p + 8] == Zeros(8);
    assert r[p..p + 4] == r[p..p + 8][..4] == Zeros(4);
    ZeroLeadsNowhere(r, p);
  }

  /** An element pointer leads to its object, which was written before it. */
  lemma {:induction false} PointerAdded(s: Bytes, d: Bytes, l: RawList, i: nat, target: nat)
    requires i < l.length && l.offset + 4 * i == |s| && HEADER <= target < |s| && |s| - target <= TWO31
    requires AddPtrS(s, target) <= d
    ensures ObjectPtr(d, l, i) == Some(target)
  {
    hide LE32, U32, Deref;
    assert d[|s|..|s| + 4] == AddPtrS(s, target)[|s|..|s| + 4] == LE32(U32(target - |s|));
    SlotLeads(d, |s|, target);
  }

  /** A null one leads nowhere. */
  lemma {:induction false} NullAdded(s: Bytes, d: Bytes, l: RawList, i: nat)
    requires l.offset + 4 * i == |s| && AddPtrS(s, 0) <= d
    ensures ObjectPtr(d, l, i) == None
  {
    hide LE32, U32, Deref;
    assert d[|s|..|s| + 4] == AddPtrS(s, 0)[|s|..|s| + 4] == Zeros(4);
    ZeroLeadsNowhere(d, |s|);
  }

  // ---- and stays so ----

  /** Later writes that leave the slot alone leave what it leads to. */
  lemma {:induction false} PointerKept(r: Bytes, d: Bytes, at: nat, off: nat, stride: nat)
    requires |r| <= |d| && forall i :: at + off <= i < at + off + 8 && i < |r| ==> d[i] == r[i]
    ensures ObjectAt(r, at, off).Some? ==> ObjectAt(d, at, off) == ObjectAt(r, at, off)
    ensures ListAt(r, at, off).Some? ==> ListAt(d, at, off) == ListAt(r, at, off)
    ensures ListStride(r, at, off, stride).Some? ==> ListStride(d, at, off, stride) == ListStride(r, at, off, stride)
  {
  }
}
