/**
 Reusing a builder.  The pool hands out builders whose buffers still hold an older message; the
 same operations on such a builder and on a fresh one give the same offsets and the same bytes,
 except for the flag word, which Reset does not clear.
 */
module BuilderReuse {
  import opened ByteStrings
  import opened WireSpec
  import opened WireBuilder

  datatype Op =
    | StartObject(size: nat)
    | SetFixed(start: nat, off: nat, data: Bytes)
    | SetBytes(start: nat, off: nat, data: Bytes)
    | SetObject(start: nat, off: nat, target: nat)
    | SetList(start: nat, off: nat, target: nat, length: nat)
    | StartList
    | Add(data: Bytes)
    | AddObjectPtr(target: nat)
    | WriteBytes(data: Bytes)
    | FinishAsRoot(start: nat)

  datatype State = State(written: Bytes, root: nat)

  /** Objects start after the header. */
  predicate Applicable(op: Op)
  {
    match op
    case SetFixed(start, _, _) => HEADER <= start
    case SetBytes(start, _, _) => HEADER <= start
    case SetObject(start, _, _) => HEADER <= start
    case SetList(start, _, _, _) => HEADER <= start
    case _ => true
  }

  /** SetBytes: what of the slot is past the written bytes does not show. */
  function SetBytesClip(s: Bytes, start: nat, off: nat, d: Bytes): (r: Bytes)
    ensures |r| == |s| + |d|
  {
    PutClip(s + d, start + off, BytesSlot(|s|, start + off, d))
  }

  /** The new state and the offset the call returns (0 for calls that return none). */
  function Step(st: State, op: Op): (State, nat)
    requires Applicable(op)
  {
    var s := st.written;
    match op
    case StartObject(size) => (st.(written := StartObjectS(s, size).0), StartObjectS(s, size).1)
    case SetFixed(start, off, d) => (st.(written := SetFixedS(s, start, off, d)), 0)
    case SetBytes(start, off, d) => (st.(written := SetBytesClip(s, start, off, d)), 0)
    case SetObject(start, off, t) => (st.(written := SetObjectS(s, start, off, t)), 0)
    case SetList(start, off, t, n) => (st.(written := SetListS(s, start, off, t, n)), 0)
    case StartList => (st.(written := AlignS(s)), |AlignS(s)|)
    case Add(d) => (st.(written := s + d), 0)
    case AddObjectPtr(t) => (st.(written := AddPtrS(s, t)), 0)
    case WriteBytes(d) => if d == [] then (st, 0) else (st.(written := AlignS(s) + d), |AlignS(s)|)
    case FinishAsRoot(start) => (st.(root := start), start)
  }

  predicate AllApplicable(ops: seq<Op>)
  {
    forall k :: 0 <= k < |ops| ==> Applicable(ops[k])
  }

  function Run(st: State, ops: seq<Op>): (State, seq<nat>)
    requires AllApplicable(ops)
    decreases |ops|
  {
    if ops == [] then (st, [])
    else
      var (next, offset) := Step(st, ops[0]);
      var (last, offsets) := Run(next, ops[1..]);
      (last, [offset] + offsets)
  }

  /** A slot in the written bytes is set as everywhere else. */
  lemma {:induction false} ClipInside(s: Bytes, start: nat, off: nat, d: Bytes)
    requires start + off + 8 <= |s|
    ensures SetBytesClip(s, start, off, d) == SetBytesS(s, start, off, d)
  {
    hide PutClip, BytesSlot, SetBytesS;
    SlotSet(s, start, off, d);
  }

  /** The class does what Step says, or panics, when a bytes slot ends past the buffer. */
  method Apply(b: Builder, op: Op) returns (offset: nat, ok: bool)
    requires b.Valid() && Applicable(op)
    modifies b, b.buf
    ensures b.Valid() && (b.buf == old(b.buf) || fresh(b.buf))
    ensures ok <==> (op.SetBytes? ==> op.start + op.off + 8 <= b.buf.Length)
    ensures op.SetBytes? ==> b.pos == old(b.pos) + |op.data|
    ensures ok ==> (State(b.Written(), b.rootOffset), offset) == Step(old(State(b.Written(), b.rootOffset)), op)
  {
    hide PutClip, BytesSlot, LE32, U32;
    offset, ok := 0, true;
    match op
    case StartObject(size) =>
      var ob := b.StartObject(size);
      offset := ob.startPos;
    case SetFixed(start, off, d) => b.SetFixed(ObjectBuilder(start, 0), off, d);
    case SetBytes(start, off, d) => ok := b.SetBytes(ObjectBuilder(start, 0), off, d);
    case SetObject(start, off, t) => b.SetObject(ObjectBuilder(start, 0), off, t);
    case SetList(start, off, t, n) => b.SetList(ObjectBuilder(start, 0), off, t, n);
    case StartList => offset := b.StartList();
    case Add(d) => b.Append(d);
    case AddObjectPtr(t) => b.AddObjectPtr(t);
    case WriteBytes(d) => offset := b.WriteBytes(d);
    case FinishAsRoot(start) => offset := b.FinishAsRoot(ObjectBuilder(start, 0));
  }

  /** No bytes slot ends past what is written once its data is: such calls never panic. */
  predicate SlotsInside(st: State, ops: seq<Op>)
    requires AllApplicable(ops)
    decreases |ops|
  {
    ops == [] ||
    ((ops[0].SetBytes? ==> ops[0].start + ops[0].off + 8 <= |st.written| + |ops[0].data|) &&
     SlotsInside(Step(st, ops[0]).0, ops[1..]))
  }

  method ApplyAll(b: Builder, ops: seq<Op>) returns (offsets: seq<nat>, ok: bool)
    requires b.Valid() && AllApplicable(ops)
    modifies b, b.buf
    ensures b.Valid() && (b.buf == old(b.buf) || fresh(b.buf))
    ensures ok ==> (State(b.Written(), b.rootOffset), offsets) == Run(old(State(b.Written(), b.rootOffset)), ops)
    ensures SlotsInside(old(State(b.Written(), b.rootOffset)), ops) ==> ok
    decreases |ops|
  {
    hide Step, Applicable;
    if ops == [] {
      return [], true;
    }
    ghost var st := State(b.Written(), b.rootOffset);
    var first;
    first, ok := Apply(b, ops[0]);
    if !ok {
      return [], false;
    }
    var rest;
    rest, ok := ApplyAll(b, ops[1..]);
    offsets := [first] + rest;
  }

  /** Equal everywhere except the flag, root and size words of the header. */
  ghost predicate Similar(a: State, b: State)
  {
    && a.root == b.root && HEADER <= |a.written| == |b.written|
    && SameOutside(a.written, b.written, 6, HEADER)
  }

  ghost predicate SameOutside(s: Bytes, t: Bytes, lo: nat, hi: nat)
  {
    |s| == |t| && forall i :: 0 <= i < |s| && !(lo <= i < hi) ==> s[i] == t[i]
  }

  /** The same store at the same place keeps two buffers the same outside the header words. */
  lemma {:induction false} StoreSimilar(s: Bytes, t: Bytes, start: nat, off: nat, d: Bytes)
    requires HEADER <= |s| == |t| && SameOutside(s, t, 6, HEADER)
    ensures SameOutside(SetFixedS(s, start, off, d), SetFixedS(t, start, off, d), 6, HEADER)
  {
  }

  lemma {:induction false} SetBytesSimilar(s: Bytes, t: Bytes, start: nat, off: nat, d: Bytes)
    requires HEADER <= |s| == |t| && SameOutside(s, t, 6, HEADER)
    ensures SameOutside(SetBytesClip(s, start, off, d), SetBytesClip(t, start, off, d), 6, HEADER)
  {
    hide LE32, U32;
  }

  lemma {:induction false} StepSimilar(a: State, b: State, op: Op)
    requires Similar(a, b) && Applicable(op)
    ensures Similar(Step(a, op).0, Step(b, op).0) && Step(a, op).1 == Step(b, op).1
  {
    hide LE32, U32, Zeros, SetFixedS, SetBytesClip;
    var s, t := a.written, b.written;
    match op
    case SetFixed(start, off, d) => StoreSimilar(s, t, start, off, d);
    case SetBytes(start, off, d) => SetBytesSimilar(s, t, start, off, d);
    case SetObject(start, off, x) =>
      StoreSimilar(s, t, start, off, if x == 0 then Zeros(4) else LE32(U32(x - (start + off))));
    case SetList(start, off, x, n) =>
      StoreSimilar(s, t, start, off, if x == 0 || n == 0 then Zeros(8)
                                     else LE32(U32(x - (start + off))) + LE32(U32(n)));
    case _ =>
  }

  /** No operation writes the header. */
  lemma {:induction false} StepKeepsHeader(a: State, op: Op)
    requires HEADER <= |a.written| && Applicable(op)
    ensures HEADER <= |Step(a, op).0.written|
    ensures forall i :: 0 <= i < HEADER ==> Step(a, op).0.written[i] == a.written[i]
  {
    hide LE32, U32, Zeros;
  }

  lemma {:induction false} RunKeepsHeader(a: State, ops: seq<Op>)
    requires HEADER <= |a.written| && AllApplicable(ops)
    ensures HEADER <= |Run(a, ops).0.written|
    ensures forall i :: 0 <= i < HEADER ==> Run(a, ops).0.written[i] == a.written[i]
    decreases |ops|
  {
    hide Step;
    if ops != [] {
      StepKeepsHeader(a, ops[0]);
      RunKeepsHeader(Step(a, ops[0]).0, ops[1..]);
    }
  }

  lemma {:induction false} RunSimilar(a: State, b: State, ops: seq<Op>)
    requires Similar(a, b) && AllApplicable(ops)
    ensures Similar(Run(a, ops).0, Run(b, ops).0) && Run(a, ops).1 == Run(b, ops).1
    decreases |ops|
  {
    if ops != [] {
      StepSimilar(a, b, ops[0]);
      RunSimilar(Step(a, ops[0]).0, Step(b, ops[0]).0, ops[1..]);
    }
  }

  lemma {:induction false} InsideSimilar(a: State, b: State, ops: seq<Op>)
    requires Similar(a, b) && AllApplicable(ops)
    ensures SlotsInside(a, ops) <==> SlotsInside(b, ops)
    decreases |ops|
  {
    hide Step, Applicable;
    if ops != [] {
      StepSimilar(a, b, ops[0]);
      InsideSimilar(Step(a, ops[0]).0, Step(b, ops[0]).0, ops[1..]);
    }
  }

  lemma {:induction false} HeaderSimilar(version: nat, oldHeader: Bytes)
    requires |oldHeader| == HEADER && oldHeader[..6] == MAGIC + LE(version, 2)
    ensures Similar(State(InitialS(version), 0), State(oldHeader, 0))
  {
    hide LE;
    var a := InitialS(version);
    forall i | 0 <= i < 6 ensures a[i] == oldHeader[i] {
      assert a[i] == (MAGIC + LE(version, 2))[i] == oldHeader[..6][i];
    }
  }

  /**
   A builder after Reset (old header bytes, magic and version kept by every operation) against a
   fresh builder of the same version.  Finished with explicit flags the two messages are equal;
   finished without, they are equal exactly when the old header's flag word was zero.
   */
  lemma {:induction false} ReusedLikeFresh(version: nat, oldHeader: Bytes, ops: seq<Op>, flags: nat)
    requires |oldHeader| == HEADER && oldHeader[..6] == MAGIC + LE(version, 2)
    requires AllApplicable(ops) && flags < 0x1_0000
    ensures var (f, offsets) := Run(State(InitialS(version), 0), ops);
            var (r, offsets') := Run(State(oldHeader, 0), ops);
            && offsets == offsets' && HEADER <= |f.written| == |r.written|
            && SameOutside(FinishS(f.written, f.root), FinishS(r.written, r.root), 6, 8)
            && (FinishS(f.written, f.root) == FinishS(r.written, r.root) <==> oldHeader[6] == oldHeader[7] == 0)
            && FinishS(Put(f.written, 6, LE(flags, 2)), f.root) == FinishS(Put(r.written, 6, LE(flags, 2)), r.root)
  {
    hide LE32, U32, Step, LE;
    var a, b := State(InitialS(version), 0), State(oldHeader, 0);
    HeaderSimilar(version, oldHeader);
    RunSimilar(a, b, ops);
    RunKeepsHeader(a, ops);
    RunKeepsHeader(b, ops);
    FinishedFlags(Run(a, ops).0, Run(b, ops).0);
  }

  lemma {:induction false} FinishedFlags(f: State, r: State)
    requires Similar(f, r)
    ensures SameOutside(FinishS(f.written, f.root), FinishS(r.written, r.root), 6, 8)
    ensures FinishS(f.written, f.root) == FinishS(r.written, r.root) <==>
            f.written[6] == r.written[6] && f.written[7] == r.written[7]
  {
    hide LE32, U32;
    var x, y := FinishS(f.written, f.root), FinishS(r.written, r.root);
    assert x[6] == f.written[6] && x[7] == f.written[7] && y[6] == r.written[6] && y[7] == r.written[7];
    if x[6] == y[6] && x[7] == y[7] {
      assert x == y;
    }
  }

  /** What Reset leaves is such an old header. */
  method ResetAndBuild(b: Builder, ops: seq<Op>, flags: nat) returns (offsets: seq<nat>, msg: Bytes, ok: bool)
    requires b.Valid() && AllApplicable(ops) && flags < 0x1_0000
    modifies b, b.buf
    ensures SlotsInside(State(InitialS(b.version), 0), ops) ==> ok
    ensures ok ==>
      var (f, offsets') := Run(State(InitialS(b.version), 0), ops);
      HEADER <= |f.written| && offsets == offsets' && msg == FinishS(Put(f.written, 6, LE(flags, 2)), f.root)
  {
    msg := [];
    b.Reset();
    assert b.buf[..HEADER][..6] == b.buf[..6];
    ReusedLikeFresh(b.version, b.buf[..HEADER], ops, flags);
    HeaderSimilar(b.version, b.buf[..HEADER]);
    InsideSimilar(State(InitialS(b.version), 0), State(b.buf[..HEADER], 0), ops);
    offsets, ok := ApplyAll(b, ops);
    if ok {
      msg := b.FinishWithFlags(flags);
    }
  }
}
