/** Inline lists in whole messages: what the reader finds of each element, wherever the list is. */
module InlineMessages {
  import opened ByteStrings
  import opened WireSpec
  import opened Trees
  import opened Relocation
  import opened TreeWriting
  import opened InlineLists

  /** All an element's program leaves, wherever it runs: its slot, and what it appends. */
  function Image(sub: Schema, p: seq<Write>): (e: Bytes)
    requires WellFormed(sub) && Typed(sub, p)
    ensures sub.size <= |e|
  {
    ExecElem([], sub, p).0
  }

  function Images(sub: Schema, ps: seq<seq<Write>>): (es: seq<Bytes>)
    requires WellFormed(sub) && forall k :: 0 <= k < |ps| ==> Typed(sub, ps[k])
    ensures |es| == |ps| && forall k :: 0 <= k < |ps| ==> es[k] == Image(sub, ps[k])
  {
    seq(|ps|, k requires 0 <= k < |ps| => Image(sub, ps[k]))
  }

  lemma {:induction false} ElemAnywhere(s: Bytes, sub: Schema, p: seq<Write>)
    requires WellFormed(sub) && Typed(sub, p)
    ensures ExecElem(s, sub, p).0 == AlignS(s) + Image(sub, p)
  {
    hide Exec, AlignS;
    ElemsAnywhere(s, sub, [p]);
    OneElem(s, sub, p);
    OneElem([], sub, p);
  }

  lemma {:induction false} OneElem(s: Bytes, sub: Schema, p: seq<Write>)
    requires WellFormed(sub) && Typed(sub, p)
    ensures ExecElems(s, sub, [p]).0 == ExecElem(s, sub, p).0
  {
    hide ExecElem;
    assert [p][..0] == [];
    NoElems(s, sub, [p][..0]);
  }

  /** The recursive writer is the plain one on those bytes. */
  lemma {:induction false} ElemsAppended(s: Bytes, sub: Schema, ps: seq<seq<Write>>)
    requires WellFormed(sub) && forall k :: 0 <= k < |ps| ==> Typed(sub, ps[k])
    ensures ExecElems(s, sub, ps).0 == AppendAll(s, Images(sub, ps))
    decreases |ps|
  {
    hide ExecElem, AlignS, WellFormed, Typed, Image;
    if ps != [] {
      var n := |ps| - 1;
      ElemsAppended(s, sub, ps[..n]);
      ElemAnywhere(ExecElems(s, sub, ps[..n]).0, sub, ps[n]);
      assert Images(sub, ps)[..n] == Images(sub, ps[..n]);
    }
  }

  lemma {:induction false} ListIsWritten(s: Bytes, at: nat, sch: Schema, i: nat, ps: seq<seq<Write>>)
    requires WellFormed(sch) && TypedWrite(sch, WElems(i, ps)) && at + sch.size <= |s|
    ensures WellFormed(sch.fields[i].sub)
    ensures var f := sch.fields[i];
      ExecWrite(s, at, sch, WElems(i, ps)) == WriteListS(s, at, sch.size, f.off, Images(f.sub, ps))
  {
    hide ExecElems, AppendAll, SetListS, Typed;
    var f := sch.fields[i];
    assert SubWellFormed(f);
    assert ReserveS(s, at, sch.size) == s;
    ElemsAppended(s, f.sub, ps);
    if ps != [] {
      FirstStart(s, f.sub, ps);
    }
  }

  // ---- an element leaves its size exactly when its program appends nothing ----

  lemma {:induction false} LoudExec(s: Bytes, at: nat, sch: Schema, prog: seq<Write>)
    requires WellFormed(sch) && Typed(sch, prog) && at + sch.size <= |s| && !QuietProg(prog)
    ensures |Exec(s, at, sch, prog)| > |s|
    decreases |prog|
  {
    hide ExecWrite, Quiet;
    var n := |prog| - 1;
    if QuietProg(prog[..n]) {
      LoudWrite(Exec(s, at, sch, prog[..n]), at, sch, prog[n]);
    } else {
      LoudExec(s, at, sch, prog[..n]);
    }
  }

  lemma {:induction false} LoudWrite(s: Bytes, at: nat, sch: Schema, w: Write)
    requires WellFormed(sch) && TypedWrite(sch, w) && at + sch.size <= |s| && !Quiet(w)
    ensures |ExecWrite(s, at, sch, w)| > |s|
  {
    hide LE32, U32, Exec, ExecElem, AddPtrs;
    var f := sch.fields[w.i];
    assert SubWellFormed(f);
    assert ReserveS(s, at, sch.size) == s;
    match w
    case WTail(_, _) =>
    case WChild(_, _) =>
    case WChildren(_, ps) => LoudElems(s, f.sub, ps);
    case WElems(_, ps) => LoudElems(s, f.sub, ps);
  }

  lemma {:induction false} LoudElems(s: Bytes, sub: Schema, ps: seq<seq<Write>>)
    requires WellFormed(sub) && sub.size >= 1 && (forall k :: 0 <= k < |ps| ==> Typed(sub, ps[k])) && ps != []
    ensures |ExecElems(s, sub, ps).0| > |s|
  {
    hide ExecElem, WellFormed, Typed;
  }

  lemma {:induction false} ImageLength(sub: Schema, p: seq<Write>)
    requires WellFormed(sub) && Typed(sub, p)
    ensures |Image(sub, p)| == sub.size <==> QuietProg(p)
  {
    hide QuietProg, WellFormed, Typed, Exec;
    NothingToAlign();
    var (t, start) := StartObjectS([], sub.size);
    if QuietProg(p) {
      QuietExec(t, start, sub, p);
    } else {
      LoudExec(t, start, sub, p);
    }
  }

  function Lens(elems: seq<Bytes>): (lens: seq<nat>)
    ensures Sized(elems, lens)
  {
    seq(|elems|, k requires 0 <= k < |elems| => |elems[k]|)
  }

  /** So a list is in step, for the reader, exactly when the schema and the programs say so. */
  lemma {:induction false} InStrideIsInStep(sub: Schema, ps: seq<seq<Write>>)
    requires WellFormed(sub) && forall k :: 0 <= k < |ps| ==> Typed(sub, ps[k])
    ensures InStride(sub, ps) <==> InStep(sub.size, Lens(Images(sub, ps)))
  {
    hide QuietProg, WellFormed, Typed, Image;
    var lens := Lens(Images(sub, ps));
    forall k | 0 <= k < |ps| ensures lens[k] == sub.size <==> QuietProg(ps[k]) { ImageLength(sub, ps[k]); }
    forall k | 0 <= k < |ps| - 1 ensures Exact(sub.size, lens[k]) <==> sub.size % 8 == 0 && QuietProg(ps[k])
    {
    }
    if |ps| > 1 {
      assert Exact(sub.size, lens[0]) <==> sub.size % 8 == 0 && QuietProg(ps[0]);
    }
  }

  // ---- exactly when the reader finds the slots ----

  /** The slot of each element, as its program leaves it. */
  function Slots(sub: Schema, ps: seq<seq<Write>>): (r: seq<Bytes>)
    requires WellFormed(sub) && forall k :: 0 <= k < |ps| ==> Typed(sub, ps[k])
    ensures |r| == |ps|
  {
    seq(|ps|, k requires 0 <= k < |ps| => Image(sub, ps[k])[..sub.size])
  }

  /** Element j displaces the next, which begins with another byte than the reader finds. */
  predicate TellsApart(stride: nat, elems: seq<Bytes>, j: nat)
  {
    && Displaces(stride, Lens(elems), j)
    && j + 1 < |elems| && |elems[j + 1]| > 0 && elems[j + 1][0] != Found(stride, elems[j])
  }

  /** The list on its own, element by element. */
  lemma {:induction false} RegionHolds(sub: Schema, ps: seq<seq<Write>>, k: nat)
    requires WellFormed(sub) && (forall k :: 0 <= k < |ps| ==> Typed(sub, ps[k])) && k < |ps|
    ensures var (region, es) := (ExecElems([], sub, ps).0, Images(sub, ps));
      && Holds(region, 0, Lens(es), k, es[k])
      && Strided(0, k, sub.size) + sub.size <= |region|
      && FoundSlots(sub, ps)[k] == region[Strided(0, k, sub.size)..Strided(0, k, sub.size) + sub.size]
  {
    hide ExecElems, AppendAll, Strided, Holds, WellFormed, Typed, Image;
    NothingToAlign();
    ElemsAppended([], sub, ps);
    ElementPlaced([], Images(sub, ps), Lens(Images(sub, ps)), k);
    RegionEnds([], sub, ps);
    StepInside(0, k, |ps|, sub.size);
  }

  /**
   Inline lists, exactly, at every depth of a message. Of each element the reader finds its slot if the
   list is in stride. If it is not, some element displaces the next, and the reader does not find that
   one's slot as soon as it begins with another byte than stands in its place.
   */
  lemma {:induction false} InlineListExact(sub: Schema, ps: seq<seq<Write>>)
    requires WellFormed(sub) && sub.size >= 1 && forall k :: 0 <= k < |ps| ==> Typed(sub, ps[k])
    ensures InStride(sub, ps) ==> FoundSlots(sub, ps) == Slots(sub, ps)
    ensures !InStride(sub, ps) ==> exists j :: Displaces(sub.size, Lens(Images(sub, ps)), j)
    ensures forall j :: TellsApart(sub.size, Images(sub, ps), j) ==> FoundSlots(sub, ps) != Slots(sub, ps)
  {
    hide InStride, InStep, Displaces, FoundSlots, Slots, Image, WellFormed, Typed, TellsApart;
    var lens := Lens(Images(sub, ps));
    InStrideIsInStep(sub, ps);
    if InStride(sub, ps) {
      forall k | 0 <= k < |ps| ensures FoundSlots(sub, ps)[k] == Slots(sub, ps)[k] { SlotFound(sub, ps, k); }
    } else {
      LongEnough(sub.size, lens);
      var j := FirstDisplaced(sub.size, lens, 0);
    }
    forall j | TellsApart(sub.size, Images(sub, ps), j) ensures FoundSlots(sub, ps) != Slots(sub, ps)
    {
      SlotMissed(sub, ps, j);
    }
  }

  lemma {:induction false} SlotFound(sub: Schema, ps: seq<seq<Write>>, k: nat)
    requires WellFormed(sub) && (forall k :: 0 <= k < |ps| ==> Typed(sub, ps[k])) && k < |ps|
    requires InStep(sub.size, Lens(Images(sub, ps)))
    ensures FoundSlots(sub, ps)[k] == Slots(sub, ps)[k]
  {
    hide ExecElems, Strided, Place, Image, Exact, WellFormed, Typed, FoundSlots;
    RegionHolds(sub, ps, k);
    PlacedInStep(0, sub.size, Lens(Images(sub, ps)), k);
    SlotOfElement(ExecElems([], sub, ps).0, Strided(0, k, sub.size), sub.size, Image(sub, ps[k]));
  }

  lemma {:induction false} SlotMissed(sub: Schema, ps: seq<seq<Write>>, j: nat)
    requires WellFormed(sub) && sub.size >= 1 && forall k :: 0 <= k < |ps| ==> Typed(sub, ps[k])
    requires TellsApart(sub.size, Images(sub, ps), j)
    ensures j + 1 < |ps| && FoundSlots(sub, ps)[j + 1] != Slots(sub, ps)[j + 1]
  {
    hide ExecElems, Strided, Image, WellFormed, Typed, FoundSlots, Holds, Found, Displaces;
    var (es, region) := (Images(sub, ps), ExecElems([], sub, ps).0);
    RegionHolds(sub, ps, j);
    RegionHolds(sub, ps, j + 1);
    FoundThere(region, 0, sub.size, es, Lens(es), j);
    var q := Strided(0, j + 1, sub.size);
    assert region[q..q + sub.size][0] == region[q];
    assert Slots(sub, ps)[j + 1][0] == es[j + 1][0];
  }

  lemma {:induction false} LongEnough(stride: nat, lens: seq<nat>)
    requires !InStep(stride, lens)
    ensures |lens| > 1
  {
  }

  // ---- elements that append nothing ----

  predicate AllZero(e: Bytes)
  {
    forall i :: 0 <= i < |e| ==> e[i] == 0
  }

  /** Elements of one size, each at its place in r. */
  ghost predicate Uniform(r: Bytes, n: nat, es: seq<Bytes>)
  {
    && (forall k :: 0 <= k < |es| ==> |es[k]| == n)
    && forall k :: 0 <= k < |es| ==> Holds(r, 0, Lens(es), k, es[k])
  }

  /** A run that is found again behind zeros, and so in part in itself, is zero. */
  lemma {:induction false} ShiftedIsZero(r: Bytes, q: nat, p: nat, e: Bytes, j: nat)
    requires q < p && p + |e| <= |r| && r[p..p + |e|] == e == r[q..q + |e|] && j < |e|
    requires forall i :: q <= i < p ==> r[i] == 0
    ensures e[j] == 0
    decreases j
  {
    assert e[j] == r[q..q + |e|][j] == r[q + j];
    if q + j >= p {
      ShiftedIsZero(r, q, p, e, q + j - p);
      assert r[p..p + |e|][q + j - p] == r[q + j];
    }
  }

  /** Zero elements, and the padding between them. */
  lemma {:induction false} ZeroRun(r: Bytes, n: nat, es: seq<Bytes>, k: nat)
    requires Uniform(r, n, es) && 1 <= k <= |es| && forall i :: 1 <= i < k ==> AllZero(es[i])
    ensures Place(0, Lens(es), k - 1) + n <= |r|
    ensures forall q :: n <= q < Place(0, Lens(es), k - 1) + n ==> r[q] == 0
    decreases k
  {
    hide Place;
    var lens := Lens(es);
    assert Holds(r, 0, lens, k - 1, es[k - 1]);
    if k == 1 {
      assert Place(0, lens, 0) == 0 by { FirstPlace(lens); }
    } else {
      ZeroRun(r, n, es, k - 1);
      assert Holds(r, 0, lens, k - 2, es[k - 2]);
      var p := Place(0, lens, k - 1);
      forall q | p <= q < p + n ensures r[q] == 0 { assert r[p..p + n][q - p] == r[q]; }
    }
  }

  lemma {:induction false} FirstPlace(lens: seq<nat>)
    ensures Place(0, lens, 0) == 0
  {
  }

  /** The reader falls behind from the second element on. */
  lemma {:induction false} FallsBehind(n: nat, lens: seq<nat>, k: nat)
    requires n % 8 != 0 && (forall i :: 0 <= i < |lens| ==> lens[i] == n) && 1 <= k <= |lens|
    ensures n <= Strided(0, k, n) < Place(0, lens, k)
    decreases k
  {
    hide Strided;
    StridedNext(0, k - 1, n);
    NextIsPadded(n);
    if k > 1 {
      FallsBehind(n, lens, k - 1);
    }
  }

  /** Where the reader finds every element, all but the first are zero. */
  lemma {:induction false} LaterZero(r: Bytes, n: nat, es: seq<Bytes>, k: nat)
    requires Uniform(r, n, es) && n % 8 != 0 && 1 <= k <= |es|
    requires forall i :: 0 <= i < |es| ==> Payload(r, 0, i, n) == es[i]
    ensures forall i :: 1 <= i < k ==> AllZero(es[i])
    decreases k
  {
    hide Place, Strided;
    if k > 1 {
      LaterZero(r, n, es, k - 1);
      ZeroRun(r, n, es, k - 1);
      FallsBehind(n, Lens(es), k - 1);
      assert Holds(r, 0, Lens(es), k - 2, es[k - 2]) && Holds(r, 0, Lens(es), k - 1, es[k - 1]);
      var (q, p, e) := (Strided(0, k - 1, n), Place(0, Lens(es), k - 1), es[k - 1]);
      assert Payload(r, 0, k - 1, n) == e;
      forall j | 0 <= j < n ensures e[j] == 0 { ShiftedIsZero(r, q, p, e, j); }
    }
  }

  /** And if they are, it finds every element. */
  lemma {:induction false} ZeroFound(r: Bytes, n: nat, es: seq<Bytes>, k: nat)
    requires Uniform(r, n, es) && n % 8 != 0 && k < |es| && forall i :: 1 <= i < |es| ==> AllZero(es[i])
    ensures Payload(r, 0, k, n) == es[k]
  {
    hide Place, Strided;
    var lens := Lens(es);
    assert Holds(r, 0, lens, k, es[k]);
    if k == 0 {
      FirstPlace(lens);
      StridedNext(0, 0, n);
    } else {
      ZeroRun(r, n, es, k + 1);
      FallsBehind(n, lens, k);
      assert AllZero(Payload(r, 0, k, n));
    }
  }

  /**
   Elements that append nothing, exactly: the reader finds every slot if and only if there is at most
   one, or eight divides their size, or all but the first are zero.
   */
  lemma {:induction false} QuietListExact(sub: Schema, ps: seq<seq<Write>>)
    requires WellFormed(sub) && sub.size >= 1 && forall k :: 0 <= k < |ps| ==> Typed(sub, ps[k])
    requires forall k :: 0 <= k < |ps| ==> QuietProg(ps[k])
    ensures FoundSlots(sub, ps) == Slots(sub, ps) <==>
              |ps| <= 1 || sub.size % 8 == 0 || forall k :: 1 <= k < |ps| ==> AllZero(Slots(sub, ps)[k])
  {
    hide FoundSlots, Slots, Image, WellFormed, Typed, QuietProg, AllZero, TellsApart, Displaces, Payload;
    InlineListExact(sub, ps);
    if |ps| > 1 && sub.size % 8 != 0 {
      var (r, n, es) := (ExecElems([], sub, ps).0, sub.size, Slots(sub, ps));
      QuietUniform(sub, ps);
      if FoundSlots(sub, ps) == es {
        forall i | 0 <= i < |es| ensures Payload(r, 0, i, n) == es[i] { FoundIsPayload(sub, ps, i); }
        LaterZero(r, n, es, |es|);
      }
      if forall k :: 1 <= k < |ps| ==> AllZero(es[k]) {
        forall i | 0 <= i < |es| ensures FoundSlots(sub, ps)[i] == es[i]
        {
          FoundIsPayload(sub, ps, i);
          ZeroFound(r, n, es, i);
        }
      }
    }
  }

  lemma {:induction false} FoundIsPayload(sub: Schema, ps: seq<seq<Write>>, k: nat)
    requires WellFormed(sub) && (forall k :: 0 <= k < |ps| ==> Typed(sub, ps[k])) && k < |ps|
    ensures FoundSlots(sub, ps)[k] == Payload(ExecElems([], sub, ps).0, 0, k, sub.size)
  {
    hide WellFormed, Typed, Payload, ExecElems;
  }

  lemma {:induction false} QuietUniform(sub: Schema, ps: seq<seq<Write>>)
    requires WellFormed(sub) && forall k :: 0 <= k < |ps| ==> Typed(sub, ps[k]) && QuietProg(ps[k])
    ensures Uniform(ExecElems([], sub, ps).0, sub.size, Slots(sub, ps))
  {
    hide WellFormed, Typed, QuietProg, ExecElems, Image, Holds;
    forall k | 0 <= k < |ps| ensures Slots(sub, ps)[k] == Images(sub, ps)[k]
    {
      ImageLength(sub, ps[k]);
    }
    assert Slots(sub, ps) == Images(sub, ps);
    forall k | 0 <= k < |ps| ensures Holds(ExecElems([], sub, ps).0, 0, Lens(Slots(sub, ps)), k, Slots(sub, ps)[k])
    {
      RegionHolds(sub, ps, k);
    }
  }
}
