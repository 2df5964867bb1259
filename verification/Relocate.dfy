/**
 Position independence: what a program writes does not depend on what is written before it, as long as that
 ends on a multiple of the alignment. Every pointer is relative.
 */
module Relocation {
  import opened ByteStrings
  import opened WireSpec
  import opened Trees

  lemma {:induction false} AlignShift(a: Bytes, s: Bytes)
    requires |a| % 8 == 0
    ensures AlignS(a + s) == a + AlignS(s)
  {
    assert Padding(|a| + |s|) == Padding(|s|);
  }

  lemma {:induction false} ReserveShift(a: Bytes, s: Bytes, at: nat, end: nat)
    ensures ReserveS(a + s, |a| + at, end) == a + ReserveS(s, at, end)
  {
  }

  lemma {:induction false} PutShift(a: Bytes, s: Bytes, at: nat, d: Bytes)
    requires at + |d| <= |s|
    ensures Put(a + s, |a| + at, d) == a + Put(s, at, d)
  {
  }

  lemma {:induction false} FixedShift(a: Bytes, s: Bytes, at: nat, off: nat, d: Bytes)
    ensures SetFixedS(a + s, |a| + at, off, d) == a + SetFixedS(s, at, off, d)
  {
    hide Put, ReserveS;
    ReserveShift(a, s, at, off + |d|);
    PutShift(a, ReserveS(s, at, off + |d|), at + off, d);
  }

  lemma {:induction false} BytesShift(a: Bytes, s: Bytes, at: nat, off: nat, v: Bytes)
    requires at + off + 8 <= |s|
    ensures SetBytesS(a + s, |a| + at, off, v) == a + SetBytesS(s, at, off, v)
  {
    hide Put, LE32, U32;
    assert a + s + v == a + (s + v);
    if v == [] {
      PutShift(a, s, at + off, Zeros(8));
    } else {
      PutShift(a, s + v, at + off, LE32(U32(|s| - (at + off))) + LE32(U32(|v|)));
    }
  }

  lemma {:induction false} ObjectShift(a: Bytes, s: Bytes, at: nat, off: nat, target: nat)
    requires target > 0
    ensures SetObjectS(a + s, |a| + at, off, |a| + target) == a + SetObjectS(s, at, off, target)
  {
    hide SetFixedS, LE32, U32;
    FixedShift(a, s, at, off, LE32(U32(target - (at + off))));
  }

  lemma {:induction false} ListShift(a: Bytes, s: Bytes, at: nat, off: nat, target: nat, n: nat)
    requires target > 0 || n == 0
    ensures SetListS(a + s, |a| + at, off, if n == 0 then 0 else |a| + target, n) == a + SetListS(s, at, off, target, n)
  {
    hide SetFixedS, LE32, U32;
    FixedShift(a, s, at, off, if n == 0 then Zeros(8) else LE32(U32(target - (at + off))) + LE32(U32(n)));
  }

  function Moved(starts: seq<nat>, delta: nat): (r: seq<nat>)
    ensures |r| == |starts|
  {
    seq(|starts|, k requires 0 <= k < |starts| => delta + starts[k])
  }

  lemma {:induction false} PtrShift(a: Bytes, s: Bytes, target: nat)
    requires target > 0
    ensures AddPtrS(a + s, |a| + target) == a + AddPtrS(s, target)
  {
    hide LE32, U32;
  }

  lemma {:induction false} PtrsShift(a: Bytes, s: Bytes, starts: seq<nat>)
    requires forall k :: 0 <= k < |starts| ==> starts[k] > 0
    ensures AddPtrs(a + s, Moved(starts, |a|)) == a + AddPtrs(s, starts)
    decreases |starts|
  {
    hide AddPtrS;
    if starts == [] {
      assert AddPtrs(a + s, Moved(starts, |a|)) == a + s;
    } else {
      var n := |starts| - 1;
      PtrsShift(a, s, starts[..n]);
      assert Moved(starts, |a|)[..n] == Moved(starts[..n], |a|);
      PtrShift(a, AddPtrs(s, starts[..n]), starts[n]);
    }
  }

  lemma {:induction false} ExecShift(a: Bytes, s: Bytes, at: nat, sch: Schema, prog: seq<Write>)
    requires WellFormed(sch) && Typed(sch, prog) && at + sch.size <= |s| && |a| % 8 == 0
    ensures Exec(a + s, |a| + at, sch, prog) == a + Exec(s, at, sch, prog)
    decreases sch, 0, |prog|
  {
    hide ExecWrite, WellFormed;
    if prog != [] {
      var n := |prog| - 1;
      ExecShift(a, s, at, sch, prog[..n]);
      WriteShift(a, Exec(s, at, sch, prog[..n]), at, sch, prog[n]);
    }
  }

  lemma {:induction false} WriteShift(a: Bytes, s: Bytes, at: nat, sch: Schema, w: Write)
    requires WellFormed(sch) && TypedWrite(sch, w) && at + sch.size <= |s| && |a| % 8 == 0
    ensures ExecWrite(a + s, |a| + at, sch, w) == a + ExecWrite(s, at, sch, w)
    decreases sch, 0, 0
  {
    hide SetFixedS, SetBytesS, SetObjectS, ChildrenS, ElemsS, ExecElem;
    var f := sch.fields[w.i];
    assert SubWellFormed(f);
    assert ReserveS(s, at, sch.size) == s && ReserveS(a + s, |a| + at, sch.size) == a + s;
    match w
    case WInline(_, b) => FixedShift(a, s, at, f.off, b);
    case WTail(_, b) => BytesShift(a, s, at, f.off, b);
    case WChild(_, p) =>
      ElemShift(a, s, f.sub, p);
      var (t, start) := ExecElem(s, f.sub, p);
      ObjectShift(a, t, at, f.off, start);
    case WChildren(_, ps) => ChildrenShift(a, s, at, f.off, f.sub, ps);
    case WElems(_, ps) => ListElemsShift(a, s, at, f.off, f.sub, ps);
  }

  lemma {:induction false} ChildrenShift(a: Bytes, s: Bytes, at: nat, off: nat, sub: Schema, ps: seq<seq<Write>>)
    requires WellFormed(sub) && (forall k :: 0 <= k < |ps| ==> Typed(sub, ps[k])) && |a| % 8 == 0 && |s| > 0
    ensures ChildrenS(a + s, |a| + at, off, sub, ps) == a + ChildrenS(s, at, off, sub, ps)
    decreases sub, 3
  {
    hide ExecElems, SetListS, AddPtrs, AlignS, WellFormed, Typed;
    ElemsShift(a, s, sub, ps);
    var (t, starts) := ExecElems(s, sub, ps);
    StartsAfter(s, sub, ps);
    if ps == [] {
      ListShift(a, t, at, off, 0, 0);
    } else {
      AlignShift(a, t);
      PtrsShift(a, AlignS(t), starts);
      ListShift(a, AddPtrs(AlignS(t), starts), at, off, |AlignS(t)|, |starts|);
    }
  }

  lemma {:induction false} ListElemsShift(a: Bytes, s: Bytes, at: nat, off: nat, sub: Schema, ps: seq<seq<Write>>)
    requires WellFormed(sub) && (forall k :: 0 <= k < |ps| ==> Typed(sub, ps[k])) && |a| % 8 == 0 && |s| > 0
    ensures ElemsS(a + s, |a| + at, off, sub, ps) == a + ElemsS(s, at, off, sub, ps)
    decreases sub, 3
  {
    hide ExecElems, SetListS, WellFormed, Typed;
    ElemsShift(a, s, sub, ps);
    var (t, starts) := ExecElems(s, sub, ps);
    StartsAfter(s, sub, ps);
    if ps == [] {
      ListShift(a, t, at, off, 0, 0);
    } else {
      ListShift(a, t, at, off, starts[0], |starts|);
    }
  }

  lemma {:induction false} StartsAfter(s: Bytes, sub: Schema, ps: seq<seq<Write>>)
    requires WellFormed(sub) && forall k :: 0 <= k < |ps| ==> Typed(sub, ps[k])
    ensures forall k :: 0 <= k < |ps| ==> |s| <= ExecElems(s, sub, ps).1[k]
    decreases |ps|
  {
    hide ExecElem, WellFormed, Typed;
    if ps != [] {
      StartsAfter(s, sub, ps[..|ps| - 1]);
    }
  }

  lemma {:induction false} ElemShift(a: Bytes, s: Bytes, sub: Schema, p: seq<Write>)
    requires WellFormed(sub) && Typed(sub, p) && |a| % 8 == 0
    ensures var (t, start) := ExecElem(s, sub, p);
      ExecElem(a + s, sub, p) == (a + t, |a| + start)
    decreases sub, 1
  {
    hide Exec, AlignS, ReserveS, WellFormed, Typed;
    AlignShift(a, s);
    ReserveShift(a, AlignS(s), |AlignS(s)|, sub.size);
    ExecShift(a, StartObjectS(s, sub.size).0, |AlignS(s)|, sub, p);
  }

  lemma {:induction false} ElemsShift(a: Bytes, s: Bytes, sub: Schema, ps: seq<seq<Write>>)
    requires WellFormed(sub) && (forall k :: 0 <= k < |ps| ==> Typed(sub, ps[k])) && |a| % 8 == 0
    ensures var (t, starts) := ExecElems(s, sub, ps);
      ExecElems(a + s, sub, ps) == (a + t, Moved(starts, |a|))
    decreases sub, 2, |ps|
  {
    hide ExecElem, WellFormed, Typed;
    if ps != [] {
      var n := |ps| - 1;
      ElemsShift(a, s, sub, ps[..n]);
      var (t, starts) := ExecElems(s, sub, ps[..n]);
      ElemShift(a, t, sub, ps[n]);
      var start := ExecElem(t, sub, ps[n]).1;
      assert Moved(starts + [start], |a|) == Moved(starts, |a|) + [|a| + start];
    } else {
      assert Moved([], |a|) == [];
    }
  }

  /** The elements of a list, wherever it is written: aligned, then as they are on their own. */
  lemma {:induction false} ElemsAnywhere(s: Bytes, sub: Schema, ps: seq<seq<Write>>)
    requires WellFormed(sub) && (forall k :: 0 <= k < |ps| ==> Typed(sub, ps[k])) && ps != []
    ensures ExecElems(s, sub, ps).0 == AlignS(s) + ExecElems([], sub, ps).0
    decreases |ps|
  {
    hide ExecElem, WellFormed, Typed;
    var a := AlignS(s);
    ElemsShift(a, [], sub, ps);
    assert a + [] == a;
    FromAligned(s, sub, ps);
  }

  /** The first element aligns, so aligning before it changes nothing. */
  lemma {:induction false} FromAligned(s: Bytes, sub: Schema, ps: seq<seq<Write>>)
    requires WellFormed(sub) && (forall k :: 0 <= k < |ps| ==> Typed(sub, ps[k])) && ps != []
    ensures ExecElems(s, sub, ps) == ExecElems(AlignS(s), sub, ps)
    decreases |ps|
  {
    hide Exec, WellFormed, Typed, AlignS;
    var n := |ps| - 1;
    if n > 0 {
      FromAligned(s, sub, ps[..n]);
    } else {
      AlignTwice(s);
      assert ExecElems(s, sub, ps[..0]) == (s, []) && ExecElems(AlignS(s), sub, ps[..0]) == (AlignS(s), []);
    }
  }

  lemma {:induction false} AlignTwice(s: Bytes)
    ensures AlignS(AlignS(s)) == AlignS(s)
  {
  }
}
