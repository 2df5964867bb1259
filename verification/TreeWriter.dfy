/**
 The recursive writers, and the proof that what they write reads back as what was meant.
 */
module TreeWriting {
  import opened ByteStrings
  import opened WireSpec
  import opened WireReader
  import opened Trees
  import opened Relocation

  // ---- the layout of a record ----

  /** Record rec of schema sch sits at position at, and all it refers to lies before end. */
  ghost predicate Encodes(d: Bytes, at: nat, end: nat, sch: Schema, rec: Record)
    decreases sch, 1
  {
    && at + sch.size <= end <= |d|
    && |rec.vals| == |sch.fields|
    && (forall i :: 0 <= i < |sch.fields| ==>
          EncodesField(d, at, end, sch.size, sch.fields[i], rec.vals[i]))
  }

  /** lo is the end of the object's payload: what a field refers to lies from there on. */
  ghost predicate EncodesField(d: Bytes, at: nat, end: nat, size: nat, f: FieldDef, v: Value)
    decreases f, 0
  {
    var p, lo := at + f.off, at + size;
    p + SlotWidth(f) <= lo <= end <= |d| &&
    match (f, v)
    case (Inline(_, width), InlineV(b)) => d[p..p + width] == b
    case (Tail(_), TailV(b)) => EncodesTail(d, p, lo, end, b)
    case (Child(_, sub), ChildV(c)) => EncodesChild(d, p, lo, end, sub, c)
    case (Children(_, sub), ChildrenV(rs)) => EncodesChildren(d, p, lo, end, sub, rs)
    case (Elems(_, sub), ElemsV(ps, known, rs)) => EncodesElems(d, p, lo, end, sub, ps, known, rs)
    case _ => false
  }

  ghost predicate EncodesTail(d: Bytes, p: nat, lo: nat, end: nat, b: Bytes)
  {
    p + 8 <= lo <= end <= |d| &&
    if b == [] then U32At(d, p) == 0
    else
      var t := p + U32At(d, p);
      lo <= t && t + |b| <= end && d[t..t + |b|] == b && U32At(d, p + 4) == |b|
  }

  ghost predicate EncodesChild(d: Bytes, p: nat, lo: nat, end: nat, sub: Schema, c: Option<Record>)
    decreases sub, 3
  {
    p + 4 <= lo <= end <= |d| &&
    if c.None? then U32At(d, p) == 0
    else
      var t := p + I32(U32At(d, p));
      lo <= t && Encodes(d, t, end, sub, c.value)
  }

  ghost predicate EncodesChildren(d: Bytes, p: nat, lo: nat, end: nat, sub: Schema, rs: seq<Record>)
    decreases sub, 3
  {
    p + 8 <= lo <= end <= |d| &&
    if rs == [] then U32At(d, p) == 0
    else
      var t := p + I32(U32At(d, p));
      lo <= t && t + 4 * |rs| <= end && U32At(d, p + 4) == |rs| &&
      forall i :: 0 <= i < |rs| ==> EncodesElem(d, lo, t, t + 4 * i, end, sub, rs[i])
  }

  /** The field leads to the payloads, one after another, and if the records are known these are theirs. */
  ghost predicate EncodesElems(d: Bytes, p: nat, lo: nat, end: nat, sub: Schema, ps: seq<Bytes>, known: bool,
                               rs: seq<Record>)
    decreases sub, 3
  {
    p + 8 <= lo <= end <= |d| && (known ==> |rs| == |ps|) &&
    if ps == [] then U32At(d, p) == 0
    else
      var t := p + I32(U32At(d, p));
      lo <= t && U32At(d, p + 4) == |ps| &&
      (forall i :: 0 <= i < |ps| ==> HasPayload(d, t, i, end, sub.size, ps[i])) &&
      (known ==> forall i :: 0 <= i < |rs| ==> EncodesStep(d, t, i, end, sub, rs[i]))
  }

  ghost predicate HasPayload(d: Bytes, base: nat, i: nat, end: nat, size: nat, b: Bytes)
  {
    var p := Strided(base, i, size);
    p + size <= end <= |d| && d[p..p + size] == b
  }

  ghost predicate EncodesStep(d: Bytes, base: nat, i: nat, end: nat, sub: Schema, rec: Record)
    decreases sub, 2
  {
    Encodes(d, Strided(base, i, sub.size), end, sub, rec)
  }

  /** The pointer slot leads to the record, which lies between lo and the pointer array. */
  ghost predicate EncodesElem(d: Bytes, lo: nat, hi: nat, slot: nat, end: nat, sub: Schema, rec: Record)
    decreases sub, 2
  {
    slot + 4 <= end <= |d| &&
    var t := slot + I32(U32At(d, slot));
    lo <= t < hi && Encodes(d, t, end, sub, rec)
  }

  ghost predicate Agree(d: Bytes, e: Bytes, lo: nat, hi: nat)
  {
    hi <= |d| && hi <= |e| && forall i :: lo <= i < hi ==> d[i] == e[i]
  }

  lemma {:induction false} AgreeSlice(d: Bytes, e: Bytes, lo: nat, hi: nat, x: nat, y: nat)
    requires Agree(d, e, lo, hi) && lo <= x <= y <= hi
    ensures d[x..y] == e[x..y]
  {
  }

  lemma {:induction false} AgreeWord(d: Bytes, e: Bytes, lo: nat, hi: nat, p: nat)
    requires Agree(d, e, lo, hi) && lo <= p && p + 4 <= hi
    ensures U32At(d, p) == U32At(e, p)
  {
  }

  /** A record stays where it is as long as its bytes do. */
  lemma {:induction false} EncodesFrame(d: Bytes, e: Bytes, at: nat, end: nat, end': nat, sch: Schema, rec: Record)
    requires Encodes(d, at, end, sch, rec)
    requires Agree(d, e, at, end) && end <= end' <= |e|
    ensures Encodes(e, at, end', sch, rec)
    decreases sch, 1
  {
    forall i | 0 <= i < |sch.fields|
      ensures EncodesField(e, at, end', sch.size, sch.fields[i], rec.vals[i])
    {
      FieldFrame(d, e, at, end, end', sch.size, sch.fields[i], rec.vals[i]);
    }
  }

  lemma {:induction false} FieldFrame(d: Bytes, e: Bytes, at: nat, end: nat, end': nat, size: nat,
                                      f: FieldDef, v: Value)
    requires EncodesField(d, at, end, size, f, v)
    requires Agree(d, e, at + f.off, at + f.off + SlotWidth(f))
    requires Agree(d, e, at + size, end) && end <= end' <= |e|
    ensures EncodesField(e, at, end', size, f, v)
    decreases f, 0
  {
    hide EncodesTail, EncodesChild, EncodesChildren, EncodesElems;
    var p := at + f.off;
    AgreeSlice(d, e, p, p + SlotWidth(f), p, p + SlotWidth(f));
    match f
    case Inline(_, _) =>
    case Tail(_) => TailFrame(d, e, p, at + size, end, end', v.bytes);
    case Child(_, sub) => ChildFrame(d, e, p, at + size, end, end', sub, v.child);
    case Children(_, sub) => ChildrenFrame(d, e, p, at + size, end, end', sub, v.children);
    case Elems(_, sub) => ElemsFrame(d, e, p, at + size, end, end', sub, v.payloads, v.known, v.elems);
  }

  lemma {:induction false} TailFrame(d: Bytes, e: Bytes, p: nat, lo: nat, end: nat, end': nat, b: Bytes)
    requires EncodesTail(d, p, lo, end, b)
    requires Agree(d, e, p, p + 8) && Agree(d, e, lo, end) && end <= end' <= |e|
    ensures EncodesTail(e, p, lo, end', b)
  {
    AgreeSlice(d, e, p, p + 8, p, p + 4);
    AgreeSlice(d, e, p, p + 8, p + 4, p + 8);
    if b != [] {
      AgreeSlice(d, e, lo, end, p + U32At(d, p), p + U32At(d, p) + |b|);
    }
  }

  lemma {:induction false} ChildFrame(d: Bytes, e: Bytes, p: nat, lo: nat, end: nat, end': nat,
                                      sub: Schema, c: Option<Record>)
    requires EncodesChild(d, p, lo, end, sub, c)
    requires Agree(d, e, p, p + 4) && Agree(d, e, lo, end) && end <= end' <= |e|
    ensures EncodesChild(e, p, lo, end', sub, c)
    decreases sub, 3
  {
    AgreeSlice(d, e, p, p + 4, p, p + 4);
    if c.Some? {
      EncodesFrame(d, e, p + I32(U32At(d, p)), end, end', sub, c.value);
    }
  }

  lemma {:induction false} ChildrenFrame(d: Bytes, e: Bytes, p: nat, lo: nat, end: nat, end': nat,
                                         sub: Schema, rs: seq<Record>)
    requires EncodesChildren(d, p, lo, end, sub, rs)
    requires Agree(d, e, p, p + 8) && Agree(d, e, lo, end) && end <= end' <= |e|
    ensures EncodesChildren(e, p, lo, end', sub, rs)
    decreases sub, 3
  {
    hide EncodesElem;
    AgreeSlice(d, e, p, p + 8, p, p + 4);
    AgreeSlice(d, e, p, p + 8, p + 4, p + 8);
    if rs != [] {
      var t := p + I32(U32At(d, p));
      forall i | 0 <= i < |rs|
        ensures EncodesElem(e, lo, t, t + 4 * i, end', sub, rs[i])
      {
        ElemFrame(d, e, lo, t, t + 4 * i, end, end', sub, rs[i]);
      }
    }
  }

  lemma {:induction false} ElemFrame(d: Bytes, e: Bytes, lo: nat, hi: nat, slot: nat, end: nat, end': nat,
                                     sub: Schema, rec: Record)
    requires EncodesElem(d, lo, hi, slot, end, sub, rec) && lo <= slot
    requires Agree(d, e, lo, end) && end <= end' <= |e|
    ensures EncodesElem(e, lo, hi, slot, end', sub, rec)
    decreases sub, 2
  {
    hide Encodes;
    AgreeSlice(d, e, lo, end, slot, slot + 4);
    EncodesFrame(d, e, slot + I32(U32At(d, slot)), end, end', sub, rec);
  }

  lemma {:induction false} ElemsFrame(d: Bytes, e: Bytes, p: nat, lo: nat, end: nat, end': nat,
                                      sub: Schema, ps: seq<Bytes>, known: bool, rs: seq<Record>)
    requires EncodesElems(d, p, lo, end, sub, ps, known, rs)
    requires Agree(d, e, p, p + 8) && Agree(d, e, lo, end) && end <= end' <= |e|
    ensures EncodesElems(e, p, lo, end', sub, ps, known, rs)
    decreases sub, 3
  {
    hide EncodesStep, HasPayload;
    AgreeSlice(d, e, p, p + 8, p, p + 4);
    AgreeSlice(d, e, p, p + 8, p + 4, p + 8);
    if ps != [] {
      var t := p + I32(U32At(d, p));
      forall i | 0 <= i < |ps| ensures HasPayload(e, t, i, end', sub.size, ps[i])
      {
        PayloadFrame(d, e, lo, t, i, end, end', sub.size, ps[i]);
      }
      forall i | known && 0 <= i < |rs| ensures EncodesStep(e, t, i, end', sub, rs[i])
      {
        StepFrame(d, e, lo, t, i, end, end', sub, rs[i]);
      }
    }
  }

  lemma {:induction false} PayloadFrame(d: Bytes, e: Bytes, lo: nat, base: nat, i: nat, end: nat, end': nat,
                                        size: nat, b: Bytes)
    requires HasPayload(d, base, i, end, size, b) && lo <= base
    requires Agree(d, e, lo, end) && end <= end' <= |e|
    ensures HasPayload(e, base, i, end', size, b)
  {
    hide Strided;
    var p := Strided(base, i, size);
    AgreeSlice(d, e, lo, end, p, p + size);
  }

  lemma {:induction false} StepFrame(d: Bytes, e: Bytes, lo: nat, base: nat, i: nat, end: nat, end': nat,
                                     sub: Schema, rec: Record)
    requires EncodesStep(d, base, i, end, sub, rec) && lo <= base
    requires Agree(d, e, lo, end) && end <= end' <= |e|
    ensures EncodesStep(e, base, i, end', sub, rec)
    decreases sub, 2
  {
    hide Encodes;
    EncodesFrame(d, e, Strided(base, i, sub.size), end, end', sub, rec);
  }

  // ---- writing keeps what was written ----

  ghost predicate OnlySlot(s: Bytes, r: Bytes, p: nat, width: nat)
  {
    |s| <= |r| && forall k :: 0 <= k < |s| && !(p <= k < p + width) ==> r[k] == s[k]
  }

  lemma {:induction false} ExecKeeps(s: Bytes, at: nat, sch: Schema, prog: seq<Write>)
    requires WellFormed(sch) && Typed(sch, prog) && at + sch.size <= |s|
    ensures OnlySlot(s, Exec(s, at, sch, prog), at, sch.size)
    decreases sch, 0, |prog|
  {
    hide ExecWrite;
    if prog != [] {
      var n := |prog| - 1;
      ExecKeeps(s, at, sch, prog[..n]);
      WriteKeeps(Exec(s, at, sch, prog[..n]), at, sch, prog[n]);
    }
  }

  /** A write changes its own slot and appends. */
  lemma {:induction false} WriteKeeps(s: Bytes, at: nat, sch: Schema, w: Write)
    requires WellFormed(sch) && TypedWrite(sch, w) && at + sch.size <= |s|
    ensures OnlySlot(s, ExecWrite(s, at, sch, w), at + sch.fields[w.i].off, SlotWidth(sch.fields[w.i]))
    decreases sch, 0, 0
  {
    hide LE32, U32, ExecElem, ExecElems, AddPtrs;
    var f := sch.fields[w.i];
    assert SubWellFormed(f);
    assert ReserveS(s, at, sch.size) == s;
    match w
    case WInline(_, b) => StoreKeeps(s, at, f.off, b);
    case WTail(_, b) =>
    case WChild(_, p) =>
      ElemKeeps(s, f.sub, p);
      var (t, start) := ExecElem(s, f.sub, p);
      ObjectSlotKeeps(t, at, f.off, start);
    case WChildren(_, ps) =>
      ElemsKeep(s, f.sub, ps);
      ChildrenKeep(s, at, f.off, f.sub, ps);
    case WElems(_, ps) =>
      ElemsKeep(s, f.sub, ps);
      var (t, starts) := ExecElems(s, f.sub, ps);
      if ps == [] {
        ListSlotKeeps(t, at, f.off, 0, 0);
      } else {
        ListSlotKeeps(t, at, f.off, starts[0], |starts|);
      }
  }

  lemma {:induction false} StoreKeeps(s: Bytes, at: nat, off: nat, d: Bytes)
    requires at + off + |d| <= |s|
    ensures OnlySlot(s, SetFixedS(s, at, off, d), at + off, |d|) && |SetFixedS(s, at, off, d)| == |s|
  {
  }

  lemma {:induction false} ObjectSlotKeeps(s: Bytes, at: nat, off: nat, target: nat)
    requires at + off + 4 <= |s|
    ensures OnlySlot(s, SetObjectS(s, at, off, target), at + off, 4)
  {
    hide LE32, U32;
  }

  lemma {:induction false} ListSlotKeeps(s: Bytes, at: nat, off: nat, target: nat, n: nat)
    requires at + off + 8 <= |s|
    ensures OnlySlot(s, SetListS(s, at, off, target, n), at + off, 8) && |SetListS(s, at, off, target, n)| == |s|
  {
    hide LE32, U32;
  }

  lemma {:induction false} ChildrenKeep(s: Bytes, at: nat, off: nat, sub: Schema, ps: seq<seq<Write>>)
    requires WellFormed(sub) && (forall k :: 0 <= k < |ps| ==> Typed(sub, ps[k])) && at + off + 8 <= |s|
    requires Agree(s, ExecElems(s, sub, ps).0, 0, |s|)
    ensures OnlySlot(s, ChildrenS(s, at, off, sub, ps), at + off, 8)
  {
    hide ExecElems, SetListS, AddPtrs, WellFormed, Typed;
    var (t, starts) := ExecElems(s, sub, ps);
    if ps == [] {
      ListSlotKeeps(t, at, off, 0, 0);
    } else {
      var a := AlignS(t);
      var b := AddPtrs(a, starts);
      assert forall k :: 0 <= k < |s| ==> b[k] == b[..|a|][k] == a[k] == a[..|t|][k] == t[k];
      ListSlotKeeps(b, at, off, |a|, |starts|);
    }
  }

  lemma {:induction false} ElemKeeps(s: Bytes, sub: Schema, p: seq<Write>)
    requires WellFormed(sub) && Typed(sub, p)
    ensures Agree(s, ExecElem(s, sub, p).0, 0, |s|)
    ensures ExecElem(s, sub, p).1 == |AlignS(s)| && AlignS(s) <= ExecElem(s, sub, p).0
    decreases sub, 1
  {
    hide Exec, WellFormed;
    var (t, start) := StartObjectS(s, sub.size);
    ExecKeeps(t, start, sub, p);
    var r := Exec(t, start, sub, p);
    assert t[..|s|] == s && t[..start] == AlignS(s);
    assert r[..start] == t[..start];
  }

  lemma {:induction false} ElemsKeep(s: Bytes, sub: Schema, ps: seq<seq<Write>>)
    requires WellFormed(sub) && forall k :: 0 <= k < |ps| ==> Typed(sub, ps[k])
    ensures Agree(s, ExecElems(s, sub, ps).0, 0, |s|)
    decreases sub, 2, |ps|
  {
    hide ExecElem, WellFormed, Typed;
    if ps != [] {
      var n := |ps| - 1;
      ElemsKeep(s, sub, ps[..n]);
      ElemKeeps(ExecElems(s, sub, ps[..n]).0, sub, ps[n]);
    }
  }

  // ---- writing keeps the layout ----

  /** One field takes a new value and nothing else moves. */
  lemma {:induction false} UpdateField(s: Bytes, r: Bytes, at: nat, sch: Schema, rec: Record, i: nat, v: Value)
    requires WellFormed(sch) && i < |sch.fields|
    requires Encodes(s, at, |s|, sch, rec)
    requires OnlySlot(s, r, at + sch.fields[i].off, SlotWidth(sch.fields[i]))
    requires EncodesField(r, at, |r|, sch.size, sch.fields[i], v)
    ensures Encodes(r, at, |r|, sch, Record(rec.vals[i := v]))
  {
    var vals := rec.vals[i := v];
    forall j | 0 <= j < |sch.fields|
      ensures EncodesField(r, at, |r|, sch.size, sch.fields[j], vals[j])
    {
      if j != i {
        var f, g := sch.fields[j], sch.fields[i];
        assert Disjoint(f, g) by {
          assert if i < j then Disjoint(g, f) else Disjoint(f, g);
        }
        FieldFrame(s, r, at, |s|, |r|, sch.size, f, rec.vals[j]);
      }
    }
  }

  /** An object whose fields are zero-filled encodes the default record. */
  lemma {:induction false} ZeroEncodesDefault(d: Bytes, at: nat, skip: nat, sch: Schema)
    requires WellFormed(sch) && at + sch.size <= |d|
    requires forall i :: 0 <= i < |sch.fields| ==> skip <= sch.fields[i].off
    requires forall k :: at + skip <= k < at + sch.size ==> d[k] == 0
    ensures Encodes(d, at, |d|, sch, Default(sch))
  {
    forall i | 0 <= i < |sch.fields|
      ensures EncodesField(d, at, |d|, sch.size, sch.fields[i], Default(sch).vals[i])
    {
      var f := sch.fields[i];
      var p := at + f.off;
      assert d[p..p + SlotWidth(f)] == Zeros(SlotWidth(f));
    }
  }

  lemma {:induction false} ExecCorrect(s: Bytes, at: nat, sch: Schema, prog: seq<Write>)
    requires WellFormed(sch) && Typed(sch, prog) && HEADER <= at && at + sch.size <= |s|
    requires Encodes(s, at, |s|, sch, Default(sch))
    requires |Exec(s, at, sch, prog)| < TWO31
    ensures OnlySlot(s, Exec(s, at, sch, prog), at, sch.size)
    ensures Encodes(Exec(s, at, sch, prog), at, |Exec(s, at, sch, prog)|, sch, Meaning(sch, prog))
    decreases sch, 0, |prog|
  {
    if prog != [] {
      var n := |prog| - 1;
      ExecCorrect(s, at, sch, prog[..n]);
      WriteCorrect(Exec(s, at, sch, prog[..n]), at, sch, prog[n], Meaning(sch, prog[..n]));
    }
  }

  lemma {:induction false} WriteCorrect(s: Bytes, at: nat, sch: Schema, w: Write, rec: Record)
    requires WellFormed(sch) && TypedWrite(sch, w) && HEADER <= at
    requires Encodes(s, at, |s|, sch, rec)
    requires |ExecWrite(s, at, sch, w)| < TWO31
    ensures OnlySlot(s, ExecWrite(s, at, sch, w), at, sch.size)
    ensures var r := ExecWrite(s, at, sch, w);
            Encodes(r, at, |r|, sch, Record(rec.vals[w.i := ValueOf(sch, w)]))
    decreases sch, 0, 0, 2
  {
    FieldCorrect(s, at, sch, w);
    UpdateField(s, ExecWrite(s, at, sch, w), at, sch, rec, w.i, ValueOf(sch, w));
  }

  lemma {:induction false} FieldCorrect(s: Bytes, at: nat, sch: Schema, w: Write)
    requires WellFormed(sch) && TypedWrite(sch, w) && HEADER <= at && at + sch.size <= |s|
    requires |ExecWrite(s, at, sch, w)| < TWO31
    ensures var r, f := ExecWrite(s, at, sch, w), sch.fields[w.i];
            && OnlySlot(s, r, at + f.off, SlotWidth(f))
            && EncodesField(r, at, |r|, sch.size, f, ValueOf(sch, w))
    decreases sch, 0, 0, 1
  {
    hide ChildrenS, EncodesChildren, ExecElem, EncodesChild, EncodesTail, Meanings, Meaning, SetObjectS;
    hide ElemsS, EncodesElems, FoundSlots;
    var f := sch.fields[w.i];
    assert SubWellFormed(f);
    assert ReserveS(s, at, sch.size) == s;
    match w
    case WInline(_, b) => InlineCorrect(s, at, f.off, b);
    case WTail(_, b) => TailCorrect(s, at, f.off, at + sch.size, b);
    case WChild(i, prog) => FieldChild(s, at, sch, i, prog);
    case WChildren(i, progs) => FieldChildren(s, at, sch, i, progs);
    case WElems(i, progs) => FieldElems(s, at, sch, i, progs);
  }

  lemma {:induction false} FieldChild(s: Bytes, at: nat, sch: Schema, i: nat, prog: seq<Write>)
    requires WellFormed(sch) && HEADER <= at && at + sch.size <= |s|
    requires TypedWrite(sch, WChild(i, prog))
    requires |ExecWrite(s, at, sch, WChild(i, prog))| < TWO31
    ensures var r, f := ExecWrite(s, at, sch, WChild(i, prog)), sch.fields[i];
            && OnlySlot(s, r, at + f.off, 4) && WellFormed(f.sub)
            && EncodesChild(r, at + f.off, at + sch.size, |r|, f.sub, Some(Meaning(f.sub, prog)))
    decreases sch, 0, 0, 0
  {
    hide ExecElem, EncodesChild, Meaning, Put, LE32;
    var f := sch.fields[i];
    assert SubWellFormed(f);
    assert ReserveS(s, at, sch.size) == s;
    ChildCorrect(s, at, f.off, at + sch.size, f.sub, prog);
  }

  lemma {:induction false} FieldChildren(s: Bytes, at: nat, sch: Schema, i: nat, progs: seq<seq<Write>>)
    requires WellFormed(sch) && HEADER <= at && at + sch.size <= |s|
    requires TypedWrite(sch, WChildren(i, progs))
    requires |ExecWrite(s, at, sch, WChildren(i, progs))| < TWO31
    ensures var r, f := ExecWrite(s, at, sch, WChildren(i, progs)), sch.fields[i];
            && OnlySlot(s, r, at + f.off, 8) && WellFormed(f.sub)
            && EncodesChildren(r, at + f.off, at + sch.size, |r|, f.sub, Meanings(f.sub, progs))
    decreases sch, 0, 0, 0
  {
    hide ChildrenS, EncodesChildren, Meanings;
    var f := sch.fields[i];
    assert SubWellFormed(f);
    assert ReserveS(s, at, sch.size) == s;
    ChildrenCorrect(s, at, f.off, at + sch.size, f.sub, progs);
  }

  lemma {:induction false} FieldElems(s: Bytes, at: nat, sch: Schema, i: nat, progs: seq<seq<Write>>)
    requires WellFormed(sch) && HEADER <= at && at + sch.size <= |s|
    requires TypedWrite(sch, WElems(i, progs))
    requires |ExecWrite(s, at, sch, WElems(i, progs))| < TWO31
    ensures var r, f := ExecWrite(s, at, sch, WElems(i, progs)), sch.fields[i];
            && OnlySlot(s, r, at + f.off, 8)
            && WellFormed(f.sub)
            && EncodesElems(r, at + f.off, at + sch.size, |r|, f.sub, FoundSlots(f.sub, progs), InStride(f.sub, progs),
                            if InStride(f.sub, progs) then Meanings(f.sub, progs) else [])
    decreases sch, 0, 0, 0
  {
    hide ElemsS, EncodesElems, Meanings, InStride, FoundSlots;
    var f := sch.fields[i];
    assert SubWellFormed(f);
    assert ReserveS(s, at, sch.size) == s;
    ListCorrect(s, at, f.off, at + sch.size, f.sub, progs);
  }

  lemma {:induction false} InlineCorrect(s: Bytes, at: nat, off: nat, b: Bytes)
    requires at + off + |b| <= |s|
    ensures var r, p := if b == [] then s else SetFixedS(s, at, off, b), at + off;
            |r| == |s| && OnlySlot(s, r, p, |b|) && r[p..p + |b|] == b
  {
    if b != [] {
      PutSlice(s, at + off, b);
    }
  }

  /** Two words written side by side read back one by one. */
  lemma {:induction false} WordsAt(r: Bytes, p: nat, a: nat, b: nat)
    requires a < TWO32 && b < TWO32 && p + 8 <= |r|
    requires r[p..p + 8] == LE32(a) + LE32(b)
    ensures U32At(r, p) == a && U32At(r, p + 4) == b
  {
    assert r[p..p + 4] == r[p..p + 8][..4] == LE32(a);
    assert r[p + 4..p + 8] == r[p..p + 8][4..] == LE32(b);
    WordRoundTrip(r, p, a);
    WordRoundTrip(r, p + 4, b);
  }

  lemma {:induction false} ZeroSlot(s: Bytes, p: nat)
    requires p + 8 <= |s|
    ensures U32At(Put(s, p, Zeros(8)), p) == 0 && OnlySlot(s, Put(s, p, Zeros(8)), p, 8)
  {
  }

  lemma {:induction false} TailCorrect(s: Bytes, at: nat, off: nat, lo: nat, b: Bytes)
    requires at + off + 8 <= lo <= |s| && |s| + |b| < TWO31
    ensures var r, p := SetBytesS(s, at, off, b), at + off;
            OnlySlot(s, r, p, 8) && EncodesTail(r, p, lo, |r|, b)
  {
    hide LE32, U32, U32At;
    var r, p := SetBytesS(s, at, off, b), at + off;
    if b == [] {
      ZeroSlot(s, p);
    } else {
      PointerRoundTrip(|s| - p);
      PointerRoundTrip(|b|);
      PutSlice(s + b, p, LE32(U32(|s| - p)) + LE32(U32(|b|)));
      WordsAt(r, p, U32(|s| - p), U32(|b|));
      assert r[|s|..|s| + |b|] == b;
    }
  }

  lemma {:induction false} ChildCorrect(s: Bytes, at: nat, off: nat, lo: nat, sub: Schema, prog: seq<Write>)
    requires WellFormed(sub) && Typed(sub, prog) && HEADER <= at && at + off + 4 <= lo <= |s|
    requires |ExecElem(s, sub, prog).0| < TWO31
    ensures var (t, start) := ExecElem(s, sub, prog);
            var r, p := SetObjectS(t, at, off, start), at + off;
            |r| == |t| && OnlySlot(s, r, p, 4) &&
            EncodesChild(r, p, lo, |r|, sub, Some(Meaning(sub, prog)))
    decreases sub, 3
  {
    hide ExecElem, Meaning, Encodes, U32, LE32, ReserveS;
    var (t, start) := ExecElem(s, sub, prog);
    ElemCorrect(s, sub, prog);
    var r, p := SetObjectS(t, at, off, start), at + off;
    PointerRoundTrip(start - p);
    WordStored(t, p, U32(start - p));
    EncodesFrame(t, r, start, |t|, |r|, sub, Meaning(sub, prog));
  }

  lemma {:induction false} ElemCorrect(s: Bytes, sub: Schema, prog: seq<Write>)
    requires WellFormed(sub) && Typed(sub, prog) && HEADER <= |s|
    requires |ExecElem(s, sub, prog).0| < TWO31
    ensures var (t, start) := ExecElem(s, sub, prog);
            Agree(s, t, 0, |s|) && Encodes(t, start, |t|, sub, Meaning(sub, prog))
    decreases sub, 1
  {
    var (t, start) := StartObjectS(s, sub.size);
    ZeroEncodesDefault(t, start, 0, sub);
    ExecCorrect(t, start, sub, prog);
    assert t[..|s|] == s;
  }

  lemma {:induction false} ElemsCorrect(s: Bytes, sub: Schema, progs: seq<seq<Write>>)
    requires WellFormed(sub) && HEADER <= |s|
    requires forall k :: 0 <= k < |progs| ==> Typed(sub, progs[k])
    requires |ExecElems(s, sub, progs).0| < TWO31
    ensures var (t, starts) := ExecElems(s, sub, progs);
            && Agree(s, t, 0, |s|)
            && forall k :: 0 <= k < |progs| ==>
                 |s| <= starts[k] && Encodes(t, starts[k], |t|, sub, Meaning(sub, progs[k]))
    decreases sub, 2, |progs|
  {
    hide ExecElem, EncodesField;
    if progs != [] {
      var n := |progs| - 1;
      var (t, starts) := ExecElems(s, sub, progs[..n]);
      var (u, start) := ExecElem(t, sub, progs[n]);
      ElemsCorrect(s, sub, progs[..n]);
      ElemCorrect(t, sub, progs[n]);
      forall k | 0 <= k < n
        ensures Encodes(u, starts[k], |u|, sub, Meaning(sub, progs[k]))
      {
        assert progs[..n][k] == progs[k];
        EncodesFrame(t, u, starts[k], |t|, |u|, sub, Meaning(sub, progs[k]));
      }
    }
  }

  lemma {:induction false} LastPtr(s: Bytes, target: nat)
    requires 0 < target < TWO31 && |s| < TWO31
    ensures I32(U32At(AddPtrS(s, target), |s|)) == target - |s|
  {
    PointerRoundTrip(target - |s|);
    var r := AddPtrS(s, target);
    WordRoundTrip(r, |s|, U32(target - |s|));
  }

  lemma {:induction false} PtrsCorrect(s: Bytes, targets: seq<nat>, k: nat)
    requires k < |targets| && 0 < targets[k] < TWO31 && |AddPtrs(s, targets)| < TWO31
    ensures I32(U32At(AddPtrs(s, targets), |s| + 4 * k)) == targets[k] - (|s| + 4 * k)
  {
    var n := |targets| - 1;
    var t := AddPtrs(s, targets[..n]);
    if k == n {
      LastPtr(t, targets[n]);
    } else {
      PtrsCorrect(s, targets[..n], k);
      assert AddPtrS(t, targets[n])[..|t|] == t;
    }
  }

  /** SetList leaves a pointer to the array and its length, and touches nothing else. */
  lemma {:induction false} ListPatched(b: Bytes, at: nat, off: nat, target: nat, n: nat)
    requires at + off + 8 <= target <= |b| < TWO31 && 0 < n < TWO31
    ensures var r, p := SetListS(b, at, off, target, n), at + off;
            && |r| == |b| && OnlySlot(b, r, p, 8)
            && I32(U32At(r, p)) == target - p && U32At(r, p + 4) == n
  {
    hide LE32, U32, I32, U32At;
    var p := at + off;
    var words := LE32(U32(target - p)) + LE32(U32(n));
    PutSlice(b, p, words);
    PointerRoundTrip(n);
    WordsAt(Put(b, p, words), p, U32(target - p), U32(n));
    PointerRoundTrip(target - p);
  }

  /** An element encoded in t is an element of the list in r, if r keeps it and has its slot. */
  lemma {:induction false} ElemPlaced(t: Bytes, r: Bytes, lo: nat, hi: nat, slot: nat, start: nat, sub: Schema,
                                      rec: Record)
    requires Encodes(t, start, |t|, sub, rec) && sub.size >= 1
    requires lo <= start && |t| <= hi && Agree(t, r, lo, |t|)
    requires slot + 4 <= |r| && I32(U32At(r, slot)) == start - slot
    ensures EncodesElem(r, lo, hi, slot, |r|, sub, rec)
  {
    hide EncodesField;
    EncodesFrame(t, r, start, |t|, |r|, sub, rec);
  }

  /** b is t, padding, and an array of slots that lead to the elements of t. */
  ghost predicate HasArray(t: Bytes, b: Bytes, apos: nat, starts: seq<nat>)
  {
    && |t| <= apos && apos + 4 * |starts| == |b| && Agree(t, b, 0, |t|)
    && forall k :: 0 <= k < |starts| ==> SlotTo(b, apos + 4 * k, starts[k])
  }

  ghost predicate SlotTo(b: Bytes, slot: nat, target: nat)
  {
    slot + 4 <= |b| && I32(U32At(b, slot)) == target - slot
  }

  lemma {:induction false} AddPtrsHasArray(t: Bytes, starts: seq<nat>)
    requires |AlignS(t)| + 4 * |starts| < TWO31
    requires forall k :: 0 <= k < |starts| ==> 0 < starts[k] < TWO31
    ensures HasArray(t, AddPtrs(AlignS(t), starts), |AlignS(t)|, starts)
  {
    var a := AlignS(t);
    var b := AddPtrs(a, starts);
    assert a == b[..|a|] && t == a[..|t|];
    forall k | 0 <= k < |starts|
      ensures SlotTo(b, |a| + 4 * k, starts[k])
    {
      PtrsCorrect(a, starts, k);
    }
  }

  /** The non-empty case: t holds the elements at starts, b adds the array, r the list field. */
  lemma {:induction false} ArrayPlaced(t: Bytes, b: Bytes, apos: nat, starts: seq<nat>, at: nat, off: nat, lo: nat,
                    sub: Schema, recs: seq<Record>)
    requires |starts| == |recs| > 0 && sub.size >= 1 && at + off + 8 <= lo <= |t| && |b| < TWO31
    requires forall k :: 0 <= k < |recs| ==>
               lo <= starts[k] && Encodes(t, starts[k], |t|, sub, recs[k])
    requires HasArray(t, b, apos, starts)
    ensures var r, p := SetListS(b, at, off, apos, |starts|), at + off;
            OnlySlot(t, r, p, 8) && EncodesChildren(r, p, lo, |r|, sub, recs)
  {
    hide Encodes, EncodesElem, SetListS, U32At;
    var r, p := SetListS(b, at, off, apos, |starts|), at + off;
    ListPatched(b, at, off, apos, |starts|);
    forall k | 0 <= k < |recs|
      ensures EncodesElem(r, lo, apos, apos + 4 * k, |r|, sub, recs[k])
    {
      var slot := apos + 4 * k;
      assert SlotTo(b, slot, starts[k]);
      AgreeWord(b, r, apos, |b|, slot);
      ElemPlaced(t, r, lo, apos, slot, starts[k], sub, recs[k]);
    }
  }

  lemma {:induction false} ChildrenCorrect(s: Bytes, at: nat, off: nat, lo: nat, sub: Schema,
                                           progs: seq<seq<Write>>)
    requires WellFormed(sub) && sub.size >= 1 && HEADER <= at && at + off + 8 <= lo <= |s|
    requires forall k :: 0 <= k < |progs| ==> Typed(sub, progs[k])
    requires |ChildrenS(s, at, off, sub, progs)| < TWO31
    ensures var r, p := ChildrenS(s, at, off, sub, progs), at + off;
            OnlySlot(s, r, p, 8) && EncodesChildren(r, p, lo, |r|, sub, Meanings(sub, progs))
    decreases sub, 3
  {
    hide Meaning, EncodesField, HasArray, AddPtrs, LE32, U32;
    var (t, starts) := ExecElems(s, sub, progs);
    var r, p := ChildrenS(s, at, off, sub, progs), at + off;
    ElemsCorrect(s, sub, progs);
    if progs != [] {
      AddPtrsHasArray(t, starts);
      ArrayPlaced(t, AddPtrs(AlignS(t), starts), |AlignS(t)|, starts, at, off, lo, sub,
                  Meanings(sub, progs));
    }
  }

  /** A program that appends nothing leaves the message as long as it was. */
  lemma {:induction false} QuietExec(s: Bytes, at: nat, sch: Schema, prog: seq<Write>)
    requires WellFormed(sch) && Typed(sch, prog) && at + sch.size <= |s| && QuietProg(prog)
    ensures |Exec(s, at, sch, prog)| == |s|
    decreases |prog|
  {
    hide ExecWrite;
    if prog != [] {
      var n := |prog| - 1;
      QuietExec(s, at, sch, prog[..n]);
      QuietWrite(Exec(s, at, sch, prog[..n]), at, sch, prog[n]);
    }
  }

  lemma {:induction false} QuietWrite(s: Bytes, at: nat, sch: Schema, w: Write)
    requires WellFormed(sch) && TypedWrite(sch, w) && at + sch.size <= |s| && Quiet(w)
    ensures |ExecWrite(s, at, sch, w)| == |s|
  {
    hide LE32, U32, SetListS, AddPtrs;
    var f := sch.fields[w.i];
    assert SubWellFormed(f);
    assert ReserveS(s, at, sch.size) == s;
    match w
    case WInline(_, b) => StoreKeeps(s, at, f.off, b);
    case WTail(_, _) =>
    case WChildren(_, ps) =>
      NoElems(s, f.sub, ps);
      ListSlotKeeps(s, at, f.off, 0, 0);
    case WElems(_, ps) =>
      NoElems(s, f.sub, ps);
      ListSlotKeeps(s, at, f.off, 0, 0);
  }

  lemma {:induction false} NoElems(s: Bytes, sub: Schema, ps: seq<seq<Write>>)
    requires WellFormed(sub) && ps == []
    ensures ExecElems(s, sub, ps) == (s, [])
  {
  }

  /** An element that appends nothing takes its size after the alignment. */
  lemma {:induction false} QuietElem(s: Bytes, sub: Schema, p: seq<Write>)
    requires WellFormed(sub) && Typed(sub, p) && QuietProg(p)
    ensures |ExecElem(s, sub, p).0| == |AlignS(s)| + sub.size && ExecElem(s, sub, p).1 == |AlignS(s)|
  {
    hide WellFormed, Typed, QuietProg, Exec, AlignS;
    var (t, start) := StartObjectS(s, sub.size);
    QuietExec(t, start, sub, p);
  }

  lemma {:induction false} Aligned(s: Bytes)
    ensures |AlignS(s)| % 8 == 0 && (|s| % 8 == 0 ==> AlignS(s) == s)
  {
  }

  /** Elements that append nothing, of a size the alignment divides, stand a stride apart. */
  lemma {:induction false} QuietElems(s: Bytes, sub: Schema, ps: seq<seq<Write>>)
    requires WellFormed(sub) && (forall k :: 0 <= k < |ps| ==> Typed(sub, ps[k]))
    requires sub.size % 8 == 0 && forall k :: 0 <= k < |ps| ==> QuietProg(ps[k])
    ensures var (t, starts) := ExecElems(s, sub, ps);
      && |AlignS(t)| == Strided(|AlignS(s)|, |ps|, sub.size)
      && forall k :: 0 <= k < |ps| ==> starts[k] == Strided(|AlignS(s)|, k, sub.size)
    decreases |ps|
  {
    hide WellFormed, Typed, QuietProg, ExecElem, AlignS, Strided;
    StridedNext(|AlignS(s)|, 0, sub.size);
    if ps != [] {
      var n := |ps| - 1;
      QuietElems(s, sub, ps[..n]);
      var u := ExecElems(s, sub, ps[..n]).0;
      QuietElem(u, sub, ps[n]);
      StridedNext(|AlignS(s)|, n, sub.size);
      Aligned(u);
      Aligned(ExecElem(u, sub, ps[n]).0);
    }
  }

  lemma {:induction false} StartsInStride(s: Bytes, sub: Schema, ps: seq<seq<Write>>, k: nat)
    requires WellFormed(sub) && (forall k :: 0 <= k < |ps| ==> Typed(sub, ps[k])) && InStride(sub, ps) && k < |ps|
    ensures var starts := ExecElems(s, sub, ps).1;
      starts[0] == |AlignS(s)| && starts[k] == Strided(starts[0], k, sub.size)
  {
    hide WellFormed, Typed, QuietProg, ExecElem, AlignS, Strided;
    var n := |ps| - 1;
    StridedNext(|AlignS(s)|, 0, sub.size);
    var u := ExecElems(s, sub, ps[..n]).0;
    ElemStart(u, sub, ps[n]);
    if n > 0 {
      QuietElems(s, sub, ps[..n]);
    }
  }

  lemma {:induction false} ElemStart(s: Bytes, sub: Schema, p: seq<Write>)
    requires WellFormed(sub) && Typed(sub, p)
    ensures ExecElem(s, sub, p).1 == |AlignS(s)|
  {
    hide Exec, AlignS;
  }

  /** What an inline list's field leads to, in stride or not. */
  lemma {:induction false} ListCorrect(s: Bytes, at: nat, off: nat, lo: nat, sub: Schema, progs: seq<seq<Write>>)
    requires WellFormed(sub) && sub.size >= 1 && HEADER <= at && at + off + 8 <= lo <= |s|
    requires forall k :: 0 <= k < |progs| ==> Typed(sub, progs[k])
    requires |ElemsS(s, at, off, sub, progs)| < TWO31
    ensures var r, p := ElemsS(s, at, off, sub, progs), at + off;
            && OnlySlot(s, r, p, 8)
            && EncodesElems(r, p, lo, |r|, sub, FoundSlots(sub, progs), InStride(sub, progs),
                            if InStride(sub, progs) then Meanings(sub, progs) else [])
    decreases sub, 3
  {
    hide Meaning, EncodesField, ExecElems, LE32, U32, Encodes, InStride, WellFormed, Typed, SetListS, HasPayload;
    hide FoundSlots;
    var (t, starts) := ExecElems(s, sub, progs);
    var r, p := ElemsS(s, at, off, sub, progs), at + off;
    ElemsKeep(s, sub, progs);
    if progs == [] {
      EmptyList(t, at, off);
      NoSlots(sub, progs);
    } else {
      ListEnds(s, sub, progs);
      ListPatched(t, at, off, starts[0], |starts|);
      forall k | 0 <= k < |progs| ensures HasPayload(r, starts[0], k, |r|, sub.size, FoundSlots(sub, progs)[k])
      {
        PayloadPlaced(s, sub, progs, k);
        PayloadFrame(t, r, lo, starts[0], k, |t|, |r|, sub.size, FoundSlots(sub, progs)[k]);
      }
      if InStride(sub, progs) {
        StepsPlaced(s, r, lo, sub, progs);
      }
    }
  }

  lemma {:induction false} NoSlots(sub: Schema, ps: seq<seq<Write>>)
    requires WellFormed(sub) && ps == []
    ensures FoundSlots(sub, ps) == [] && InStride(sub, ps) && Meanings(sub, ps) == []
  {
  }

  /** In stride, the records are where the payloads are. */
  lemma {:induction false} StepsPlaced(s: Bytes, r: Bytes, lo: nat, sub: Schema, ps: seq<seq<Write>>)
    requires WellFormed(sub) && HEADER <= lo <= |s| && ps != [] && InStride(sub, ps)
    requires forall k :: 0 <= k < |ps| ==> Typed(sub, ps[k])
    requires var t := ExecElems(s, sub, ps).0;
      |t| < TWO31 && |t| <= |r| && Agree(t, r, lo, |t|)
    ensures var base := ExecElems(s, sub, ps).1[0];
      forall k :: 0 <= k < |ps| ==> EncodesStep(r, base, k, |r|, sub, Meanings(sub, ps)[k])
    decreases sub, 3, 0
  {
    hide Meaning, ExecElems, Encodes, InStride, WellFormed, Typed;
    var (t, starts) := ExecElems(s, sub, ps);
    ElemsCorrect(s, sub, ps);
    forall k | 0 <= k < |ps| ensures EncodesStep(r, starts[0], k, |r|, sub, Meanings(sub, ps)[k])
    {
      StartsInStride(s, sub, ps, k);
      EncodesFrame(t, r, starts[k], |t|, |r|, sub, Meaning(sub, ps[k]));
    }
  }

  /** The elements take at least their size each. */
  lemma {:induction false} RegionEnds(s: Bytes, sub: Schema, ps: seq<seq<Write>>)
    requires WellFormed(sub) && (forall k :: 0 <= k < |ps| ==> Typed(sub, ps[k])) && ps != []
    ensures Strided(|AlignS(s)|, |ps|, sub.size) <= |ExecElems(s, sub, ps).0|
    decreases |ps|
  {
    hide WellFormed, Typed, ExecElem, Strided, AlignS;
    var n := |ps| - 1;
    var u := ExecElems(s, sub, ps[..n]).0;
    StridedNext(|AlignS(s)|, n, sub.size);
    ElemStart(u, sub, ps[n]);
    if n == 0 {
      NoElems(s, sub, ps[..n]);
    } else {
      RegionEnds(s, sub, ps[..n]);
    }
  }

  lemma {:induction false} PayloadPlaced(s: Bytes, sub: Schema, ps: seq<seq<Write>>, k: nat)
    requires WellFormed(sub) && (forall k :: 0 <= k < |ps| ==> Typed(sub, ps[k])) && k < |ps|
    ensures var (t, starts) := ExecElems(s, sub, ps);
      starts[0] == |AlignS(s)| && HasPayload(t, starts[0], k, |t|, sub.size, FoundSlots(sub, ps)[k])
  {
    hide WellFormed, Typed, ExecElems, AlignS;
    FirstStart(s, sub, ps);
    ElemsAnywhere(s, sub, ps);
    RegionEnds([], sub, ps);
    assert |AlignS([])| == 0 by { NothingToAlign(); }
    StepInside(0, k, |ps|, sub.size);
    var (a, region) := (AlignS(s), ExecElems([], sub, ps).0);
    var p := Strided(0, k, sub.size);
    assert Strided(|a|, k, sub.size) == |a| + p;
    assert (a + region)[|a| + p..|a| + p + sub.size] == region[p..p + sub.size];
  }

  lemma {:induction false} NothingToAlign()
    ensures AlignS([]) == []
  {
  }

  lemma {:induction false} StepInside(base: nat, k: nat, n: nat, size: nat)
    requires k < n
    ensures Strided(base, k, size) + size <= Strided(base, n, size)
    decreases n
  {
    hide Strided;
    StridedNext(base, n - 1, size);
    if k < n - 1 {
      StepInside(base, k, n - 1, size);
    }
  }

  lemma {:induction false} FirstStart(s: Bytes, sub: Schema, ps: seq<seq<Write>>)
    requires WellFormed(sub) && (forall k :: 0 <= k < |ps| ==> Typed(sub, ps[k])) && ps != []
    ensures |ExecElems(s, sub, ps).1| == |ps| && ExecElems(s, sub, ps).1[0] == |AlignS(s)|
    decreases |ps|
  {
    hide ExecElem, AlignS, WellFormed, Typed;
    var n := |ps| - 1;
    ElemStart(ExecElems(s, sub, ps[..n]).0, sub, ps[n]);
    if n == 0 {
      NoElems(s, sub, ps[..n]);
    } else {
      FirstStart(s, sub, ps[..n]);
    }
  }

  lemma {:induction false} EmptyList(t: Bytes, at: nat, off: nat)
    requires at + off + 8 <= |t|
    ensures OnlySlot(t, SetListS(t, at, off, 0, 0), at + off, 8) && U32At(SetListS(t, at, off, 0, 0), at + off) == 0
    ensures |SetListS(t, at, off, 0, 0)| == |t|
  {
  }

  /** There are no more elements than bytes after the first begins. */
  lemma {:induction false} ListEnds(s: Bytes, sub: Schema, ps: seq<seq<Write>>)
    requires WellFormed(sub) && sub.size >= 1 && ps != []
    requires forall k :: 0 <= k < |ps| ==> Typed(sub, ps[k])
    ensures var (t, starts) := ExecElems(s, sub, ps);
      |s| <= starts[0] && starts[0] + |ps| <= |t|
  {
    hide WellFormed, Typed, ExecElems;
    FirstStart(s, sub, ps);
    RegionEnds(s, sub, ps);
    MulAtLeast(|ps|, sub.size);
  }

  predicate OutsideSlot(at: nat, f: FieldDef, k: nat)
  {
    k < at + f.off || at + f.off + SlotWidth(f) <= k
  }

  predicate Spares(sch: Schema, at: nat, w: Write, k: nat)
  {
    w.i < |sch.fields| ==> OutsideSlot(at, sch.fields[w.i], k)
  }

  /** A byte outside the slots a program writes keeps its value. */
  lemma {:induction false} UnownedByteKept(s: Bytes, at: nat, sch: Schema, prog: seq<Write>, k: nat)
    requires WellFormed(sch) && Typed(sch, prog) && at + sch.size <= |s| && k < |s|
    requires forall j :: 0 <= j < |prog| ==> Spares(sch, at, prog[j], k)
    ensures Exec(s, at, sch, prog)[k] == s[k]
    decreases |prog|
  {
    hide ExecWrite;
    if prog != [] {
      var n := |prog| - 1;
      UnownedByteKept(s, at, sch, prog[..n], k);
      WriteKeeps(Exec(s, at, sch, prog[..n]), at, sch, prog[n]);
    }
  }

  // ---- reading what is encoded ----

  lemma {:induction false} ReadEncoded(d: Bytes, at: nat, end: nat, sch: Schema, rec: Record)
    requires Encodes(d, at, end, sch, rec) && HEADER <= at && |d| < TWO31 && WellFormed(sch)
    ensures Agrees(rec, ReadRecord(View(d, at, sch.size), sch))
    decreases sch, 1
  {
    hide ValueAgrees;
    var got := ReadRecord(View(d, at, sch.size), sch);
    forall i | 0 <= i < |sch.fields|
      ensures ValueAgrees(rec.vals[i], got.vals[i])
    {
      assert SubWellFormed(sch.fields[i]);
      FieldReads(d, at, end, sch.size, sch.fields[i], rec.vals[i]);
    }
  }

  lemma {:induction false} FieldReads(d: Bytes, at: nat, end: nat, size: nat, f: FieldDef, v: Value)
    requires EncodesField(d, at, end, size, f, v) && HEADER <= at && |d| < TWO31 && SubWellFormed(f)
    ensures ValueAgrees(v, ReadField(View(d, at, size), f))
    decreases f, 0
  {
    hide EncodesTail, EncodesChild, EncodesChildren, EncodesElems;
    var p, v' := at + f.off, View(d, at, size);
    match f
    case Inline(off, width) => SliceOfSlice(d, at, size, off, width);
    case Tail(off) => TailReads(d, p, at + size, end, v.bytes);
    case Child(off, sub) => ChildFieldReads(v', end, off, sub, v.child);
    case Children(off, sub) => ChildrenFieldReads(v', end, off, sub, v.children);
    case Elems(off, sub) => ElemsFieldReads(v', end, off, sub, v.payloads, v.known, v.elems);
  }

  lemma {:induction false} SliceOfSlice(d: Bytes, at: nat, size: nat, off: nat, width: nat)
    requires off + width <= size && at + size <= |d|
    ensures d[at..at + size][off..off + width] == d[at + off..at + off + width]
  {
    var s := d[at..at + size];
    var (l, r) := (s[off..off + width], d[at + off..at + off + width]);
    forall i | 0 <= i < width ensures l[i] == r[i]
    {
      assert s[off + i] == d[at + off + i];
    }
  }

  lemma {:induction false} TailReads(d: Bytes, p: nat, lo: nat, end: nat, b: Bytes)
    requires EncodesTail(d, p, lo, end, b) && HEADER <= p
    ensures BytesAt(d, p, 0) == b
  {
  }

  lemma {:induction false} ChildFieldReads(v: View, end: nat, off: nat, sub: Schema, c: Option<Record>)
    requires InBounds(v) && HEADER <= v.off && |v.data| < TWO31 && sub.size >= 1 && WellFormed(sub)
    requires EncodesChild(v.data, v.off + off, v.off + v.size, end, sub, c)
    ensures ValueAgrees(ChildV(c), ReadField(v, Child(off, sub)))
    decreases sub, 4
  {
    hide Encodes, ReadRecord, Agrees;
    if c.Some? {
      ChildReads(v.data, v.off + off, v.off + v.size, end, sub, c.value);
    }
  }

  lemma {:induction false} ChildrenFieldReads(v: View, end: nat, off: nat, sub: Schema, rs: seq<Record>)
    requires InBounds(v) && HEADER <= v.off && |v.data| < TWO31 && sub.size >= 1 && WellFormed(sub)
    requires EncodesChildren(v.data, v.off + off, v.off + v.size, end, sub, rs)
    ensures ValueAgrees(ChildrenV(rs), ReadField(v, Children(off, sub)))
    decreases sub, 4
  {
    hide EncodesElem, ReadElem, Agrees;
    if rs != [] {
      ChildrenRead(v.data, v.off + off, v.off + v.size, end, sub, rs);
    }
  }

  lemma {:induction false} ChildReads(d: Bytes, p: nat, lo: nat, end: nat, sub: Schema, rec: Record)
    requires EncodesChild(d, p, lo, end, sub, Some(rec)) && HEADER <= p && |d| < TWO31
    requires sub.size >= 1 && WellFormed(sub)
    ensures Deref(d, p).Some? && Deref(d, p).value + sub.size <= |d|
    ensures Agrees(rec, ReadRecord(View(d, Deref(d, p).value, sub.size), sub))
    decreases sub, 3
  {
    ReadEncoded(d, p + I32(U32At(d, p)), end, sub, rec);
  }

  lemma {:induction false} ChildrenRead(d: Bytes, p: nat, lo: nat, end: nat, sub: Schema, rs: seq<Record>)
    requires EncodesChildren(d, p, lo, end, sub, rs) && HEADER <= p && |d| < TWO31 && rs != []
    requires sub.size >= 1 && WellFormed(sub)
    ensures Deref(d, p).Some? && U32At(d, p + 4) == |rs| && 4 * |rs| <= |d| - Deref(d, p).value
    ensures forall i :: 0 <= i < |rs| ==>
              Agrees(rs[i], ReadElem(d, RawList(Deref(d, p).value, |rs|), i, sub))
    decreases sub, 3
  {
    hide ReadRecord, EncodesField, Agrees;
    var t := p + I32(U32At(d, p));
    forall i | 0 <= i < |rs|
      ensures Agrees(rs[i], ReadElem(d, RawList(t, |rs|), i, sub))
    {
      assert EncodesElem(d, lo, t, t + 4 * i, end, sub, rs[i]);
      ReadEncoded(d, t + 4 * i + I32(U32At(d, t + 4 * i)), end, sub, rs[i]);
    }
  }

  lemma {:induction false} ElemsFieldReads(v: View, end: nat, off: nat, sub: Schema, ps: seq<Bytes>, known: bool,
                                           rs: seq<Record>)
    requires InBounds(v) && HEADER <= v.off && |v.data| < TWO31 && sub.size >= 1 && WellFormed(sub)
    requires EncodesElems(v.data, v.off + off, v.off + v.size, end, sub, ps, known, rs)
    ensures ValueAgrees(ElemsV(ps, known, rs), ReadField(v, Elems(off, sub)))
    decreases sub, 4
  {
    hide EncodesStep, ReadInline, WellFormed, U32At, Agrees, HasPayload, Payload;
    if ps != [] {
      ListGranted(v.data, v.off, off, v.off + v.size, end, sub, ps, known, rs);
      var l := ListStride(v.data, v.off, off, sub.size).value;
      forall i | 0 <= i < |ps| ensures Payload(v.data, l.offset, i, sub.size) == ps[i]
      {
        PayloadReads(v.data, l.offset, i, end, sub.size, ps[i]);
      }
      assert ReadField(v, Elems(off, sub)).payloads == ps;
      forall i | known && 0 <= i < |rs| ensures Agrees(rs[i], ReadInline(v.data, l, i, sub))
      {
        StepReads(v.data, l, i, end, sub, rs[i]);
      }
    }
  }

  lemma {:induction false} PayloadReads(d: Bytes, base: nat, i: nat, end: nat, size: nat, b: Bytes)
    requires HasPayload(d, base, i, end, size, b)
    ensures Payload(d, base, i, size) == b
  {
    hide Strided;
  }

  lemma {:induction false} ListGranted(d: Bytes, at: nat, off: nat, lo: nat, end: nat, sub: Schema, ps: seq<Bytes>,
                                       known: bool, rs: seq<Record>)
    requires EncodesElems(d, at + off, lo, end, sub, ps, known, rs) && HEADER <= at && sub.size >= 1 && ps != []
    ensures ListStride(d, at, off, sub.size) == Some(RawList(at + off + I32(U32At(d, at + off)), |ps|))
  {
    hide U32At, EncodesStep;
    var (t, n) := (at + off + I32(U32At(d, at + off)), |ps|);
    assert HasPayload(d, t, n - 1, end, sub.size, ps[n - 1]);
    StridedNext(t, n - 1, sub.size);
    assert Strided(t, n, sub.size) <= |d| && Strided(t, n, sub.size) == t + n * sub.size;
    assert Deref(d, at + off) == Some(t);
  }

  lemma {:induction false} StepReads(d: Bytes, l: RawList, i: nat, end: nat, sub: Schema, rec: Record)
    requires EncodesStep(d, l.offset, i, end, sub, rec) && HEADER <= l.offset && |d| < TWO31 && WellFormed(sub)
    ensures Agrees(rec, ReadInline(d, l, i, sub))
    decreases sub, 2
  {
    hide ReadRecord, EncodesField, WellFormed, Agrees, Strided;
    ReadEncoded(d, Strided(l.offset, i, sub.size), end, sub, rec);
  }
}
