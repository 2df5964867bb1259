/** Build, WriteNested and WriteListNested over the mutable builder, and Wrap on the result. */
module TreeBuild {
  import opened ByteStrings
  import opened WireSpec
  import opened WireReader
  import opened WireBuilder
  import opened Trees
  import opened TreeWriting
  import opened Pointers

  method RunProgram(b: Builder, ob: ObjectBuilder, sch: Schema, prog: seq<Write>)
    requires b.Valid() && WellFormed(sch) && Typed(sch, prog)
    requires HEADER <= ob.startPos && ob.startPos + sch.size <= b.pos
    modifies b`buf, b`pos, b.buf
    ensures b.Valid() && (b.buf == old(b.buf) || fresh(b.buf))
    ensures b.Written() == Exec(old(b.Written()), ob.startPos, sch, prog)
    decreases sch, 0, |prog|, 1
  {
    for k := 0 to |prog|
      invariant b.Valid() && (b.buf == old(b.buf) || fresh(b.buf))
      invariant b.Written() == Exec(old(b.Written()), ob.startPos, sch, prog[..k])
    {
      RunWrite(b, ob, sch, prog[k]);
      assert prog[..k + 1][..k] == prog[..k];
    }
    assert prog[..|prog|] == prog;
  }

  /** One call of Write, WriteString/WriteBytes, WriteNested, WriteListNested or WriteList. */
  method RunWrite(b: Builder, ob: ObjectBuilder, sch: Schema, w: Write)
    requires b.Valid() && WellFormed(sch) && TypedWrite(sch, w)
    requires HEADER <= ob.startPos && ob.startPos + sch.size <= b.pos
    modifies b`buf, b`pos, b.buf
    ensures b.Valid() && (b.buf == old(b.buf) || fresh(b.buf))
    ensures b.Written() == ExecWrite(old(b.Written()), ob.startPos, sch, w)
    decreases sch, 0, 0, 0
  {
    var f := sch.fields[w.i];
    assert SubWellFormed(f);
    match w
    case WInline(_, v) => b.SetBytesFixed(ob, f.off, v);
    case WTail(_, v) => var _ := b.SetBytes(ob, f.off, v);
    case WChild(_, prog) => WriteNested(b, ob, sch.size, f.off, f.sub, prog);
    case WChildren(_, progs) => WriteListNested(b, ob, sch.size, f.off, f.sub, progs);
    case WElems(_, progs) => WriteList(b, ob, sch.size, f.off, f.sub, progs);
  }

  method WriteNested(b: Builder, ob: ObjectBuilder, parentSize: nat, off: nat, sub: Schema, prog: seq<Write>)
    requires b.Valid() && WellFormed(sub) && Typed(sub, prog) && HEADER <= ob.startPos
    modifies b`buf, b`pos, b.buf
    ensures b.Valid() && (b.buf == old(b.buf) || fresh(b.buf))
    ensures var (t, start) := ExecElem(ReserveS(old(b.Written()), ob.startPos, parentSize), sub, prog);
            b.Written() == SetObjectS(t, ob.startPos, off, start)
    decreases sub, 4
  {
    b.EnsureField(ob, parentSize);
    var start := AppendElem(b, sub, prog);
    b.SetObject(ob, off, start);
  }

  /** NestedElemSetter.Append: one out-of-line object and its position. */
  method AppendElem(b: Builder, sub: Schema, prog: seq<Write>) returns (start: nat)
    requires b.Valid() && WellFormed(sub) && Typed(sub, prog)
    modifies b`buf, b`pos, b.buf
    ensures b.Valid() && (b.buf == old(b.buf) || fresh(b.buf))
    ensures (b.Written(), start) == ExecElem(old(b.Written()), sub, prog)
    decreases sub, 1
  {
    var ob := b.StartObject(sub.size);
    RunProgram(b, ob, sub, prog);
    start := ob.startPos;
  }

  method WriteListNested(b: Builder, ob: ObjectBuilder, parentSize: nat, off: nat, sub: Schema,
                         progs: seq<seq<Write>>)
    requires b.Valid() && WellFormed(sub) && HEADER <= ob.startPos
    requires forall k :: 0 <= k < |progs| ==> Typed(sub, progs[k])
    modifies b`buf, b`pos, b.buf
    ensures b.Valid() && (b.buf == old(b.buf) || fresh(b.buf))
    ensures b.Written() == ChildrenS(ReserveS(old(b.Written()), ob.startPos, parentSize),
                                     ob.startPos, off, sub, progs)
    decreases sub, 4
  {
    hide ExecElems, AddPtrs, AlignS, ReserveS, SetListS, WellFormed;
    b.EnsureField(ob, parentSize);
    var positions := AppendElems(b, sub, progs);
    if |positions| == 0 {
      b.SetList(ob, off, 0, 0);
      return;
    }
    var listOffset := AddPointers(b, positions);
    b.SetList(ob, off, listOffset, |positions|);
  }

  method WriteList(b: Builder, ob: ObjectBuilder, parentSize: nat, off: nat, sub: Schema, progs: seq<seq<Write>>)
    requires b.Valid() && WellFormed(sub) && HEADER <= ob.startPos
    requires forall k :: 0 <= k < |progs| ==> Typed(sub, progs[k])
    modifies b`buf, b`pos, b.buf
    ensures b.Valid() && (b.buf == old(b.buf) || fresh(b.buf))
    ensures b.Written() == ElemsS(ReserveS(old(b.Written()), ob.startPos, parentSize), ob.startPos, off, sub, progs)
    decreases sub, 4
  {
    hide ExecElems, ReserveS, SetListS, WellFormed;
    b.EnsureField(ob, parentSize);
    var positions := AppendElems(b, sub, progs);
    if |positions| == 0 {
      b.SetList(ob, off, 0, 0);
    } else {
      b.SetList(ob, off, positions[0], |positions|);
    }
  }

  /** The init closure's Append calls, and the positions they note. */
  method AppendElems(b: Builder, sub: Schema, progs: seq<seq<Write>>) returns (positions: seq<nat>)
    requires b.Valid() && WellFormed(sub)
    requires forall k :: 0 <= k < |progs| ==> Typed(sub, progs[k])
    modifies b`buf, b`pos, b.buf
    ensures b.Valid() && (b.buf == old(b.buf) || fresh(b.buf))
    ensures (b.Written(), positions) == ExecElems(old(b.Written()), sub, progs)
    decreases sub, 3
  {
    hide ExecElem, WellFormed, Typed;
    positions := [];
    for k := 0 to |progs|
      invariant b.Valid() && (b.buf == old(b.buf) || fresh(b.buf))
      invariant (b.Written(), positions) == ExecElems(old(b.Written()), sub, progs[..k])
    {
      var start := AppendElem(b, sub, progs[k]);
      positions := positions + [start];
      assert progs[..k + 1][..k] == progs[..k];
    }
    assert progs[..|progs|] == progs;
  }

  /** The aligned array of pointers to the elements. */
  method AddPointers(b: Builder, positions: seq<nat>) returns (listOffset: nat)
    requires b.Valid()
    modifies b`buf, b`pos, b.buf
    ensures b.Valid() && (b.buf == old(b.buf) || fresh(b.buf))
    ensures b.Written() == AddPtrs(AlignS(old(b.Written())), positions) && listOffset == |AlignS(old(b.Written()))|
  {
    hide AddPtrS, AlignS;
    listOffset := b.StartList();
    ghost var aligned := b.Written();
    for k := 0 to |positions|
      invariant b.Valid() && (b.buf == old(b.buf) || fresh(b.buf))
      invariant b.Written() == AddPtrs(aligned, positions[..k])
    {
      b.AddObjectPtr(positions[k]);
      assert positions[..k + 1][..k] == positions[..k];
    }
    assert positions[..|positions|] == positions;
  }

  // ---- whole messages ----

  /** A top-level schema: well formed, and its fields keep off the kind byte. */
  predicate TopLevel(sch: Schema)
  {
    WellFormed(sch) && sch.size >= 1 && forall i :: 0 <= i < |sch.fields| ==> sch.fields[i].off >= 1
  }

  /** The root object with its kind byte, before the init closure runs. */
  function StartS(sch: Schema, kind: byte): (r: Bytes)
    requires sch.size >= 1
    ensures |r| == HEADER + sch.size
  {
    SetFixedS(StartObjectS(InitialS(VERSION2), sch.size).0, HEADER, 0, [kind])
  }

  function BuildS(sch: Schema, kind: byte, prog: seq<Write>): Bytes
    requires TopLevel(sch) && Typed(sch, prog)
  {
    FinishS(Exec(StartS(sch, kind), HEADER, sch, prog), HEADER)
  }

  method Build(sch: Schema, kind: byte, prog: seq<Write>) returns (v: View, msg: Bytes)
    requires TopLevel(sch) && Typed(sch, prog)
    ensures msg == BuildS(sch, kind, prog)
    ensures InBounds(v) && v == View(msg, HEADER, sch.size)
  {
    var b := new Builder(HEADER + sch.size, VERSION2);
    var ob := b.StartObject(sch.size);
    b.SetFixed(ob, 0, [kind]);
    RunProgram(b, ob, sch, prog);
    var root := b.FinishAsRoot(ob);
    msg := b.Finish();
    v := View(msg, root, sch.size);
  }

  datatype WrapResult = Wrapped(view: View) | BadFrame(e: ParseError) | OutOfBounds | WrongKind(got: byte)

  function Wrap(b: Bytes, kind: byte, size: nat): (r: WrapResult)
    ensures r.Wrapped? ==> InBounds(r.view) && r.view.size == size
  {
    match Parse(b)
    case Rejected(e) => BadFrame(e)
    case Parsed(d) =>
      var root := Root(d);
      if root >= |d| then OutOfBounds
      else if d[root] != kind then WrongKind(d[root])
      else if root + size > |d| then OutOfBounds
      else Wrapped(View(d, root, size))
  }

  lemma {:induction false} WrappedIsParsed(b: Bytes, kind: byte, size: nat)
    requires Wrap(b, kind, size).Wrapped?
    ensures Parse(b) == Parsed(Wrap(b, kind, size).view.data)
  {
    hide Parse;
  }

  lemma {:induction false} StartEncodes(sch: Schema, kind: byte)
    requires TopLevel(sch)
    ensures Encodes(StartS(sch, kind), HEADER, |StartS(sch, kind)|, sch, Default(sch))
    ensures StartS(sch, kind)[HEADER] == kind
    ensures StartS(sch, kind)[..6] == MAGIC + LE(VERSION2, 2)
  {
    var s := StartS(sch, kind);
    assert InitialS(VERSION2)[..6] == MAGIC + LE(VERSION2, 2);
    assert s[..6] == InitialS(VERSION2)[..6];
    ZeroEncodesDefault(s, HEADER, 1, sch);
  }

  /** Finish completes the header words and leaves the rest. */
  lemma {:induction false} FinishedHeader(s: Bytes, root: nat)
    requires HEADER <= |s| < TWO31 && root < TWO31
    ensures var r := FinishS(s, root);
            r[..8] == s[..8] && r[HEADER..] == s[HEADER..] && U32At(r, 8) == root && U32At(r, 12) == |s|
  {
    hide LE32, U32;
    var t := Put(s, 8, LE32(U32(root)));
    var r := FinishS(s, root);
    PointerRoundTrip(root);
    PointerRoundTrip(|s|);
    WordStored(s, 8, U32(root));
    WordStored(t, 12, U32(|s|));
    assert forall i :: 0 <= i < 12 ==> r[i] == t[i];
  }

  lemma {:induction false} ParseFinished(s: Bytes, root: nat)
    requires WellHeaded(s) && |s| < TWO31 && root < TWO31
    ensures Parse(FinishS(s, root)) == Parsed(FinishS(s, root))
  {
    hide FromLE;
    var r := FinishS(s, root);
    FinishedHeader(s, root);
    assert r[..4] == r[..8][..4] == s[..8][..4] == s[..4];
    assert r[4..6] == r[..8][4..6] == s[..8][4..6] == s[4..6];
    assert r[..|r|] == r;
  }

  /** What a builder starts from is well headed, and whatever keeps its first bytes. */
  lemma {:induction false} HeadKept(s: Bytes)
    requires HEADER <= |s| && s[..6] == MAGIC + LE(VERSION2, 2)
    ensures WellHeaded(s)
  {
    assert s[..4] == s[..6][..4] == MAGIC && s[4..6] == s[..6][4..6] == LE(VERSION2, 2);
    PowFacts();
    LERoundTrip(VERSION2, 2);
  }

  /** Finished and parsed, every pointer leads where it led while the message was built. */
  lemma {:induction false} PointersFinished(e: Bytes, root: nat, at: nat, off: nat, stride: nat)
    requires WellHeaded(e) && |e| < TWO31 && root < TWO31 && HEADER <= at
    ensures var d := FinishS(e, root);
      && Parse(d) == Parsed(d) && Root(d) == root
      && (ObjectAt(e, at, off).Some? ==> ObjectAt(d, at, off) == ObjectAt(e, at, off))
      && (ListAt(e, at, off).Some? ==> ListAt(d, at, off) == ListAt(e, at, off))
      && (ListStride(e, at, off, stride).Some? ==> ListStride(d, at, off, stride) == ListStride(e, at, off, stride))
  {
    hide FinishS, Parse, ObjectAt, ListAt, ListStride;
    FinishedHeader(e, root);
    FinishedBody(e, root);
    ParseFinished(e, root);
    PointerKept(e, FinishS(e, root), at, off, stride);
  }

  /** An object field set to any object of the message, forwards or backwards, is that object once parsed. */
  lemma {:induction false} LinkedObject(s: Bytes, at: nat, off: nat, target: nat, root: nat)
    requires WellHeaded(s) && HEADER <= at && |SetObjectS(s, at, off, target)| < TWO31 && root < TWO31
    requires HEADER <= target < |SetObjectS(s, at, off, target)| && target != at + off
    ensures var b := FinishS(SetObjectS(s, at, off, target), root);
      && Parse(b).Parsed? && Root(Parse(b).data) == root && ObjectAt(Parse(b).data, at, off) == Some(target)
      && (root == at ==> Walk(Parse(b).data, [ToObject(off)]) == Some(Obj(target)))
  {
    hide FinishS, Parse, ObjectAt, SetObjectS;
    assert [ToObject(off)][..0] == [];
    SetKeepsHead(s, at, off, target, 0);
    ObjectSet(s, at, off, target);
    HeadStays(s, SetObjectS(s, at, off, target));
    PointersFinished(SetObjectS(s, at, off, target), root, at, off, 0);
  }

  /** And a list field, that list. */
  lemma {:induction false} LinkedList(s: Bytes, at: nat, off: nat, target: nat, n: nat, root: nat, stride: nat)
    requires WellHeaded(s) && HEADER <= at && |SetListS(s, at, off, target, n)| < TWO31 && root < TWO31
    requires HEADER <= target < |SetListS(s, at, off, target, n)| && target != at + off
    requires 0 < n <= |SetListS(s, at, off, target, n)|
    ensures var b := FinishS(SetListS(s, at, off, target, n), root);
      && Parse(b).Parsed? && ListAt(Parse(b).data, at, off) == Some(RawList(target, n))
      && (ListFits(|b|, target, n, stride) ==>
            ListStride(Parse(b).data, at, off, stride) == Some(RawList(target, n)))
  {
    hide FinishS, Parse, ListAt, ListStride, SetListS, ListFits;
    SetKeepsHead(s, at, off, target, n);
    ListSet(s, at, off, target, n, stride);
    HeadStays(s, SetListS(s, at, off, target, n));
    PointersFinished(SetListS(s, at, off, target, n), root, at, off, stride);
  }

  /** A slot of a pointer array leads to its object, before it or behind, if that is all there. */
  lemma {:induction false} ElementLeads(d: Bytes, l: RawList, i: nat, target: nat, size: nat)
    requires i < l.length && l.offset + 4 * i + 4 <= |d| && HEADER <= target
    requires var slot := l.offset + 4 * i;
      d[slot..slot + 4] == LE32(U32(target - slot)) && Reachable(slot, target) && target != slot
    ensures ListNestedElem(d, l, i, size) == if target + size <= |d| then Some(View(d, target, size)) else None
  {
    hide LE32, U32, I32, U32At;
    var slot := l.offset + 4 * i;
    WordRoundTrip(d, slot, U32(target - slot));
    PointerRoundTrip(target - slot);
  }

  /** A null slot reads as an element with every field at its default. */
  lemma {:induction false} NullElementReads(d: Bytes, l: RawList, i: nat, sub: Schema)
    requires l.offset + 4 * i + 4 <= |d| && d[l.offset + 4 * i..l.offset + 4 * i + 4] == Zeros(4)
    ensures |ReadElem(d, l, i, sub).vals| == |sub.fields|
    ensures forall k :: 0 <= k < |sub.fields| ==> ReadElem(d, l, i, sub).vals[k] == DefaultValue(sub.fields[k])
  {
    SliceWord(d, l.offset + 4 * i, Zeros(4));
  }

  lemma {:induction false} HeadStays(s: Bytes, r: Bytes)
    requires WellHeaded(s) && |s| <= |r| && r[..6] == s[..6]
    ensures WellHeaded(r)
  {
    assert r[..4] == r[..6][..4] == s[..6][..4] == s[..4] && r[4..6] == r[..6][4..6] == s[..6][4..6] == s[4..6];
  }

  lemma {:induction false} SetKeepsHead(s: Bytes, at: nat, off: nat, target: nat, n: nat)
    requires HEADER <= at && HEADER <= |s|
    ensures SetObjectS(s, at, off, target)[..6] == s[..6] && SetListS(s, at, off, target, n)[..6] == s[..6]
    ensures at + off + 4 <= |SetObjectS(s, at, off, target)| && at + off + 8 <= |SetListS(s, at, off, target, n)|
  {
    hide LE32, U32;
  }

  /** What is finished is what was written, past the header. */
  lemma {:induction false} FinishedBody(e: Bytes, root: nat)
    requires HEADER <= |e| < TWO31 && root < TWO31
    ensures |FinishS(e, root)| == |e| && Agree(e, FinishS(e, root), HEADER, |e|)
  {
    hide FinishS;
    FinishedHeader(e, root);
    var msg := FinishS(e, root);
    forall i | HEADER <= i < |e| ensures msg[i] == e[i] {
      assert msg[i] == msg[HEADER..][i - HEADER];
    }
  }

  /** Every message Build makes is accepted by Wrap. */
  lemma {:induction false} BuildWraps(sch: Schema, kind: byte, prog: seq<Write>)
    requires TopLevel(sch) && Typed(sch, prog) && |BuildS(sch, kind, prog)| < TWO31
    ensures var (msg, e) := (BuildS(sch, kind, prog), Exec(StartS(sch, kind), HEADER, sch, prog));
            && Wrap(msg, kind, sch.size) == Wrapped(View(msg, HEADER, sch.size))
            && |msg| == |e| && Agree(e, msg, HEADER, |e|) && U32At(msg, 8) == HEADER
  {
    hide StartS, Exec, FinishS, Parse;
    var s := StartS(sch, kind);
    var e := Exec(s, HEADER, sch, prog);
    StartEncodes(sch, kind);
    ExecKeeps(s, HEADER, sch, prog);
    assert e[..6] == s[..6];
    UnownedByteKept(s, HEADER, sch, prog, HEADER);
    FinishedHeader(e, HEADER);
    FinishedBody(e, HEADER);
    HeadKept(e);
    ParseFinished(e, HEADER);
  }

  /** And by no Wrap for another kind, or for more than is there. */
  lemma {:induction false} WrapsOnlyItself(sch: Schema, kind: byte, prog: seq<Write>, other: byte, size: nat)
    requires TopLevel(sch) && Typed(sch, prog) && |BuildS(sch, kind, prog)| < TWO31
    ensures var msg := BuildS(sch, kind, prog);
      Wrap(msg, other, size) ==
        if other != kind then WrongKind(kind)
        else if HEADER + size > |msg| then OutOfBounds else Wrapped(View(msg, HEADER, size))
  {
    hide Parse, BuildS;
    BuildWraps(sch, kind, prog);
  }

  /** The flags a message is finished with are the ones it is read with. */
  lemma {:induction false} FlagsFinished(s: Bytes, flags: nat, root: nat)
    requires WellHeaded(s) && |s| < TWO31 && root < TWO31 && flags < 0x1_0000
    ensures var d := FinishS(Put(s, 6, LE(flags, 2)), root);
      Parse(d) == Parsed(d) && Flags(d) == flags && Root(d) == root
  {
    hide FinishS, Parse, LE, FromLE;
    var e := Put(s, 6, LE(flags, 2));
    PowFacts();
    PutSlice(s, 6, LE(flags, 2));
    LERoundTrip(flags, 2);
    assert e[..6] == s[..6];
    HeadStays(s, e);
    FinishedHeader(e, root);
    ParseFinished(e, root);
    var d := FinishS(e, root);
    assert d[6..8] == d[..8][6..8] == e[..8][6..8] == e[6..8];
  }

  /**
   The recursive round trip: whatever tree a program of writes describes, in whatever order its fields are
   written, the finished message is accepted by Wrap, and what is read at every depth agrees with what was
   meant: every fixed field, byte string and nested object, every payload of every inline list, and the
   records of those that stand in stride.
   */
  lemma {:induction false} BuildThenAgree(sch: Schema, kind: byte, prog: seq<Write>)
    requires TopLevel(sch) && Typed(sch, prog) && |BuildS(sch, kind, prog)| < TWO31
    ensures var msg := BuildS(sch, kind, prog);
            && Wrap(msg, kind, sch.size) == Wrapped(View(msg, HEADER, sch.size))
            && Agrees(Meaning(sch, prog), ReadRecord(View(msg, HEADER, sch.size), sch))
  {
    hide StartS, Exec, FinishS, ReadRecord, Encodes, Parse, Meaning, Wrap, Agrees;
    BuildWraps(sch, kind, prog);
    StartEncodes(sch, kind);
    FinishedAgrees(StartS(sch, kind), sch, prog);
  }

  /** Any start that encodes the default record will do. */
  lemma {:induction false} FinishedAgrees(s: Bytes, sch: Schema, prog: seq<Write>)
    requires WellFormed(sch) && Typed(sch, prog) && |s| == HEADER + sch.size
    requires Encodes(s, HEADER, |s|, sch, Default(sch)) && |Exec(s, HEADER, sch, prog)| < TWO31
    ensures var msg := FinishS(Exec(s, HEADER, sch, prog), HEADER);
            |msg| >= HEADER + sch.size && Agrees(Meaning(sch, prog), ReadRecord(View(msg, HEADER, sch.size), sch))
  {
    hide Exec, FinishS, ReadRecord, Encodes, Meaning, Agrees;
    var e := Exec(s, HEADER, sch, prog);
    var msg := FinishS(e, HEADER);
    ExecCorrect(s, HEADER, sch, prog);
    FinishedBody(e, HEADER);
    EncodesFrame(e, msg, HEADER, |e|, |msg|, sch, Meaning(sch, prog));
    ReadEncoded(msg, HEADER, |msg|, sch, Meaning(sch, prog));
  }

  /** And when all its inline lists are in stride, what is read is what was meant. */
  lemma {:induction false} BuildThenRead(sch: Schema, kind: byte, prog: seq<Write>)
    requires TopLevel(sch) && Typed(sch, prog) && Straight(sch, prog) && |BuildS(sch, kind, prog)| < TWO31
    ensures var msg := BuildS(sch, kind, prog);
            && Wrap(msg, kind, sch.size) == Wrapped(View(msg, HEADER, sch.size))
            && ReadRecord(View(msg, HEADER, sch.size), sch) == Meaning(sch, prog)
  {
    hide BuildS, ReadRecord, Meaning, Straight, Wrap, Agrees;
    BuildThenAgree(sch, kind, prog);
    StraightIsWhole(sch, prog);
    WholeAgrees(Meaning(sch, prog), ReadRecord(View(BuildS(sch, kind, prog), HEADER, sch.size), sch));
  }
}
