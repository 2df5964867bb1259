/**
 Schemas, records and the typed views and setters over them.

 The init closures a caller passes to Build, WriteNested and Append are modelled by the sequence
 of writes they perform: a program, nested like the closures are.
 */
module Trees {
  import opened ByteStrings
  import opened WireSpec
  import opened WireReader

  // ---- schemas, records, programs ----

  datatype FieldDef =
    | Inline(off: nat, width: nat)      // scalars and bytes<N>
    | Tail(off: nat)                    // string and bytes
    | Child(off: nat, sub: Schema)      // singular nested object
    | Children(off: nat, sub: Schema)   // repeated nested objects
    | Elems(off: nat, sub: Schema)      // an inline list of objects, one after another

  datatype Schema = Schema(size: nat, fields: seq<FieldDef>)

  datatype Value =
    | InlineV(bytes: Bytes)
    | TailV(bytes: Bytes)
    | ChildV(child: Option<Record>)
    | ChildrenV(children: seq<Record>)
    | ElemsV(payloads: seq<Bytes>, known: bool, elems: seq<Record>)

  datatype Record = Record(vals: seq<Value>)

  datatype Write =
    | WInline(i: nat, bytes: Bytes)
    | WTail(i: nat, bytes: Bytes)
    | WChild(i: nat, prog: seq<Write>)
    | WChildren(i: nat, progs: seq<seq<Write>>)
    | WElems(i: nat, progs: seq<seq<Write>>)

  function SlotWidth(f: FieldDef): nat
  {
    match f
    case Inline(_, width) => width
    case Tail(_) => 8
    case Child(_, _) => 4
    case Children(_, _) => 8
    case Elems(_, _) => 8
  }

  predicate Disjoint(f: FieldDef, g: FieldDef)
  {
    f.off + SlotWidth(f) <= g.off || g.off + SlotWidth(g) <= f.off
  }

  /** Fields inside the payload and pairwise disjoint; nested schemas are not empty. */
  predicate WellFormed(s: Schema)
  {
    && (forall i :: 0 <= i < |s.fields| ==> s.fields[i].off + SlotWidth(s.fields[i]) <= s.size)
    && (forall i, j :: 0 <= i < j < |s.fields| ==> Disjoint(s.fields[i], s.fields[j]))
    && (forall i :: 0 <= i < |s.fields| ==> SubWellFormed(s.fields[i]))
  }

  predicate SubWellFormed(f: FieldDef)
  {
    match f
    case Child(_, sub) => sub.size >= 1 && WellFormed(sub)
    case Children(_, sub) => sub.size >= 1 && WellFormed(sub)
    case Elems(_, sub) => sub.size >= 1 && WellFormed(sub)
    case _ => true
  }

  /** Each write names a field of its own kind. */
  predicate Typed(s: Schema, prog: seq<Write>)
    decreases s, 1
  {
    forall k :: 0 <= k < |prog| ==> TypedWrite(s, prog[k])
  }

  predicate TypedWrite(s: Schema, w: Write)
    decreases s, 0
  {
    w.i < |s.fields| &&
    match (w, s.fields[w.i])
    case (WInline(_, b), Inline(_, width)) => |b| == width
    case (WTail(_, _), Tail(_)) => true
    case (WChild(_, p), Child(_, sub)) => Typed(sub, p)
    case (WChildren(_, ps), Children(_, sub)) =>
      forall k :: 0 <= k < |ps| ==> Typed(sub, ps[k])
    case (WElems(_, ps), Elems(_, sub)) =>
      forall k :: 0 <= k < |ps| ==> Typed(sub, ps[k])
    case _ => false
  }

  // ---- inline lists whose elements stand where the reader looks ----

  /** The write appends nothing to the message. */
  predicate Quiet(w: Write)
  {
    match w
    case WInline(_, _) => true
    case WTail(_, b) => b == []
    case WChild(_, _) => false
    case WChildren(_, ps) => ps == []
    case WElems(_, ps) => ps == []
  }

  predicate QuietProg(prog: seq<Write>)
  {
    forall k :: 0 <= k < |prog| ==> Quiet(prog[k])
  }

  /**
   The reader steps by the size of the element schema. The writer starts each element on a multiple of
   eight, after all that the one before it appended.
   */
  predicate InStride(sub: Schema, progs: seq<seq<Write>>)
  {
    |progs| <= 1 || (sub.size % 8 == 0 && forall k :: 0 <= k < |progs| - 1 ==> QuietProg(progs[k]))
  }

  /** Every inline list the program writes, at any depth, is in stride. */
  predicate Straight(s: Schema, prog: seq<Write>)
    requires Typed(s, prog)
    decreases s, 1
  {
    forall k :: 0 <= k < |prog| ==> StraightWrite(s, prog[k])
  }

  predicate StraightWrite(s: Schema, w: Write)
    requires TypedWrite(s, w)
    decreases s, 0
  {
    match w
    case WChild(i, p) => Straight(s.fields[i].sub, p)
    case WChildren(i, ps) => forall k :: 0 <= k < |ps| ==> Straight(s.fields[i].sub, ps[k])
    case WElems(i, ps) =>
      InStride(s.fields[i].sub, ps) && forall k :: 0 <= k < |ps| ==> Straight(s.fields[i].sub, ps[k])
    case _ => true
  }

  // ---- the writers as functions of the written bytes ----

  /** Run a program on the object of schema sch at position at. */
  function Exec(s: Bytes, at: nat, sch: Schema, prog: seq<Write>): (r: Bytes)
    requires WellFormed(sch) && Typed(sch, prog) && at + sch.size <= |s|
    ensures |s| <= |r|
    decreases sch, 0, |prog|
  {
    if prog == [] then s
    else ExecWrite(Exec(s, at, sch, prog[..|prog| - 1]), at, sch, prog[|prog| - 1])
  }

  function ExecWrite(s: Bytes, at: nat, sch: Schema, w: Write): (r: Bytes)
    requires WellFormed(sch) && TypedWrite(sch, w) && at + sch.size <= |s|
    ensures |s| <= |r|
    decreases sch, 0, 0
  {
    var f := sch.fields[w.i];
    assert SubWellFormed(f);
    match w
    case WInline(_, b) => if b == [] then s else SetFixedS(s, at, f.off, b)
    case WTail(_, b) => SetBytesS(s, at, f.off, b)
    case WChild(_, p) =>
      var (t, start) := ExecElem(ReserveS(s, at, sch.size), f.sub, p);
      SetObjectS(t, at, f.off, start)
    case WChildren(_, ps) =>
      ChildrenS(ReserveS(s, at, sch.size), at, f.off, f.sub, ps)
    case WElems(_, ps) =>
      ElemsS(ReserveS(s, at, sch.size), at, f.off, f.sub, ps)
  }

  /** The elements, then the list field of the parent. */
  function ElemsS(s: Bytes, at: nat, off: nat, sub: Schema, ps: seq<seq<Write>>): (r: Bytes)
    requires WellFormed(sub) && forall k :: 0 <= k < |ps| ==> Typed(sub, ps[k])
    ensures |s| <= |r|
    decreases sub, 3
  {
    var (t, starts) := ExecElems(s, sub, ps);
    if ps == [] then SetListS(t, at, off, 0, 0) else SetListS(t, at, off, starts[0], |starts|)
  }

  /** The elements, then the pointer array, then the list field of the parent. */
  function ChildrenS(s: Bytes, at: nat, off: nat, sub: Schema, ps: seq<seq<Write>>): (r: Bytes)
    requires WellFormed(sub) && forall k :: 0 <= k < |ps| ==> Typed(sub, ps[k])
    ensures |s| <= |r|
    decreases sub, 3
  {
    var (t, starts) := ExecElems(s, sub, ps);
    if ps == [] then SetListS(t, at, off, 0, 0)
    else
      var a := AlignS(t);
      SetListS(AddPtrs(a, starts), at, off, |a|, |starts|)
  }

  /** StartObject, then the init closure; the object's position is the second result. */
  function ExecElem(s: Bytes, sub: Schema, p: seq<Write>): (r: (Bytes, nat))
    requires WellFormed(sub) && Typed(sub, p)
    ensures |s| <= r.1 && r.1 + sub.size <= |r.0|
    decreases sub, 1
  {
    var (t, start) := StartObjectS(s, sub.size);
    (Exec(t, start, sub, p), start)
  }

  function ExecElems(s: Bytes, sub: Schema, ps: seq<seq<Write>>): (r: (Bytes, seq<nat>))
    requires WellFormed(sub) && forall k :: 0 <= k < |ps| ==> Typed(sub, ps[k])
    ensures |s| <= |r.0| && |r.1| == |ps|
    decreases sub, 2, |ps|
  {
    if ps == [] then (s, [])
    else
      var n := |ps| - 1;
      var (t, starts) := ExecElems(s, sub, ps[..n]);
      var (u, start) := ExecElem(t, sub, ps[n]);
      (u, starts + [start])
  }

  function AddPtrs(s: Bytes, targets: seq<nat>): (r: Bytes)
    ensures |r| == |s| + 4 * |targets| && r[..|s|] == s
  {
    if targets == [] then s
    else
      var n := |targets| - 1;
      var t := AddPtrs(s, targets[..n]);
      assert AddPtrS(t, targets[n])[..|s|] == t[..|s|];
      AddPtrS(t, targets[n])
  }

  /** Where the i-th of objects of this size stands. */
  function Strided(base: nat, i: nat, size: nat): (p: nat)
    ensures base <= p
  {
    base + i * size
  }

  lemma {:induction false} StridedNext(base: nat, i: nat, size: nat)
    ensures Strided(base, 0, size) == base && Strided(base, i + 1, size) == Strided(base, i, size) + size
  {
  }

  /** The bytes of the i-th of them, as the reader steps. */
  function Payload(d: Bytes, base: nat, i: nat, size: nat): Bytes
  {
    var p := Strided(base, i, size);
    if p + size > |d| then [] else d[p..p + size]
  }

  /** What a reader that steps by the size of the elements finds for each of them. */
  function FoundSlots(sub: Schema, ps: seq<seq<Write>>): (r: seq<Bytes>)
    requires WellFormed(sub) && forall k :: 0 <= k < |ps| ==> Typed(sub, ps[k])
    ensures |r| == |ps|
  {
    var region := ExecElems([], sub, ps).0;
    seq(|ps|, k requires 0 <= k < |ps| => Payload(region, 0, k, sub.size))
  }

  // ---- what a program means ----

  function DefaultValue(f: FieldDef): Value
  {
    match f
    case Inline(_, width) => InlineV(Zeros(width))
    case Tail(_) => TailV([])
    case Child(_, _) => ChildV(None)
    case Children(_, _) => ChildrenV([])
    case Elems(_, _) => ElemsV([], true, [])
  }

  function Default(s: Schema): Record
  {
    Record(seq(|s.fields|, i requires 0 <= i < |s.fields| => DefaultValue(s.fields[i])))
  }

  /**
   The record a program describes: every field holds its last write, or its default. An inline list has
   a payload for each element, and records only if it is in stride.
   */
  function Meaning(s: Schema, prog: seq<Write>): (r: Record)
    requires WellFormed(s) && Typed(s, prog)
    ensures |r.vals| == |s.fields|
    decreases s, |prog|
  {
    if prog == [] then Default(s)
    else
      var n := |prog| - 1;
      assert TypedWrite(s, prog[n]);
      Record(Meaning(s, prog[..n]).vals[prog[n].i := ValueOf(s, prog[n])])
  }

  function ValueOf(s: Schema, w: Write): Value
    requires WellFormed(s) && TypedWrite(s, w)
    decreases s, 0
  {
    assert SubWellFormed(s.fields[w.i]);
    match w
    case WInline(_, b) => InlineV(b)
    case WTail(_, b) => TailV(b)
    case WChild(i, p) => ChildV(Some(Meaning(s.fields[i].sub, p)))
    case WChildren(i, ps) => ChildrenV(Meanings(s.fields[i].sub, ps))
    case WElems(i, ps) =>
      var sub := s.fields[i].sub;
      ElemsV(FoundSlots(sub, ps), InStride(sub, ps), if InStride(sub, ps) then Meanings(sub, ps) else [])
  }

  function Meanings(s: Schema, progs: seq<seq<Write>>): (rs: seq<Record>)
    requires WellFormed(s) && forall k :: 0 <= k < |progs| ==> Typed(s, progs[k])
    ensures |rs| == |progs|
    ensures forall k :: 0 <= k < |progs| ==> rs[k] == Meaning(s, progs[k])
    decreases s
  {
    seq(|progs|, k requires 0 <= k < |progs| => Meaning(s, progs[k]))
  }

  // ---- reading ----

  /** A view: the message and the position of the object; its payload is the next size bytes. */
  datatype View = View(data: Bytes, off: nat, size: nat)

  predicate InBounds(v: View)
  {
    v.off + v.size <= |v.data|
  }

  /** Read: a fixed-size field of the payload, zero when it does not fit. */
  function Read(v: View, off: nat, width: nat): (r: Bytes)
    requires InBounds(v)
    ensures |r| == width
  {
    if off + width > v.size then Zeros(width)
    else v.data[v.off..v.off + v.size][off..off + width]
  }

  function NestedAt(v: View, off: nat, size: nat): (r: Option<View>)
    ensures r.Some? ==> r.value.data == v.data && InBounds(r.value)
    ensures r.Some? ==> HEADER <= r.value.off && r.value.size == size
  {
    match ObjectAt(v.data, v.off, off)
    case None => None
    case Some(o) => if o + size > |v.data| then None else Some(View(v.data, o, size))
  }

  /** The pointer array of a repeated nested field. */
  function ListNestedAt(v: View, off: nat): Option<RawList>
  {
    match ListStride(v.data, v.off, off, 4)
    case None => None
    case Some(l) => if l.length == 0 then Some(RawList(0, 0)) else Some(l)
  }

  function ListNestedElem(d: Bytes, l: RawList, i: nat, size: nat): (r: Option<View>)
    ensures r.Some? ==> r.value.data == d && InBounds(r.value)
    ensures r.Some? ==> HEADER <= r.value.off && r.value.size == size
  {
    if i >= l.length || l.offset + 4 * i + 4 > |d| then None
    else
      var slot := l.offset + 4 * i;
      var rel := I32(U32At(d, slot));
      if rel == 0 then None
      else
        var target := slot + rel;
        if target < HEADER || target + size > |d| then None else Some(View(d, target, size))
  }

  /** Everything a reader of schema s can see of the object under v. */
  function ReadRecord(v: View, s: Schema): Record
    requires InBounds(v)
    decreases s, 1
  {
    Record(seq(|s.fields|, i requires 0 <= i < |s.fields| => ReadField(v, s.fields[i])))
  }

  function ReadField(v: View, f: FieldDef): Value
    requires InBounds(v)
    decreases f, 0
  {
    match f
    case Inline(off, width) => InlineV(Read(v, off, width))
    case Tail(off) => TailV(BytesAt(v.data, v.off, off))
    case Child(off, sub) =>
      ChildV(match NestedAt(v, off, sub.size)
             case None => None
             case Some(c) => Some(ReadRecord(c, sub)))
    case Children(off, sub) =>
      ChildrenV(match ListNestedAt(v, off)
                case None => []
                case Some(l) => seq(l.length, i requires 0 <= i => ReadElem(v.data, l, i, sub)))
    case Elems(off, sub) =>
      (match ListStride(v.data, v.off, off, sub.size)
       case None => ElemsV([], true, [])
       case Some(l) =>
         ElemsV(seq(l.length, i requires 0 <= i => Payload(v.data, l.offset, i, sub.size)), true,
                seq(l.length, i requires 0 <= i => ReadInline(v.data, l, i, sub))))
  }

  /** List.At: a stride from the one before; the zero view when it does not fit. */
  function ReadInline(d: Bytes, l: RawList, i: nat, sub: Schema): Record
    decreases sub, 2
  {
    var at := Strided(l.offset, i, sub.size);
    if at + sub.size > |d| then Default(sub) else ReadRecord(View(d, at, sub.size), sub)
  }

  /** A null element reads as the zero view: every field at its default. */
  function ReadElem(d: Bytes, l: RawList, i: nat, sub: Schema): Record
    decreases sub, 2
  {
    match ListNestedElem(d, l, i, sub.size)
    case None => Default(sub)
    case Some(c) => ReadRecord(c, sub)
  }

  // ---- what was meant and what was read ----

  /** Equal in all but the records of inline lists that have none. */
  predicate Agrees(rec: Record, got: Record)
    decreases rec
  {
    |rec.vals| == |got.vals| && forall i :: 0 <= i < |rec.vals| ==> ValueAgrees(rec.vals[i], got.vals[i])
  }

  predicate ValueAgrees(v: Value, got: Value)
    decreases v
  {
    match v
    case InlineV(_) => got == v
    case TailV(_) => got == v
    case ChildV(c) =>
      got.ChildV? && (c.Some? <==> got.child.Some?) && (c.Some? ==> Agrees(c.value, got.child.value))
    case ChildrenV(rs) => got.ChildrenV? && AllAgree(rs, got.children)
    case ElemsV(ps, known, rs) =>
      got.ElemsV? && got.known && got.payloads == ps && (known ==> AllAgree(rs, got.elems))
  }

  predicate AllAgree(rs: seq<Record>, got: seq<Record>)
    decreases rs
  {
    |rs| == |got| && forall i :: 0 <= i < |rs| ==> Agrees(rs[i], got[i])
  }

  /** Every inline list, at any depth, has its records. */
  predicate Whole(rec: Record)
    decreases rec
  {
    forall i :: 0 <= i < |rec.vals| ==> WholeValue(rec.vals[i])
  }

  predicate WholeValue(v: Value)
    decreases v
  {
    match v
    case ChildV(c) => c.Some? ==> Whole(c.value)
    case ChildrenV(rs) => forall i :: 0 <= i < |rs| ==> Whole(rs[i])
    case ElemsV(_, known, rs) => known && forall i :: 0 <= i < |rs| ==> Whole(rs[i])
    case _ => true
  }

  /** Then what agrees is equal. */
  lemma {:induction false} WholeAgrees(rec: Record, got: Record)
    requires Whole(rec) && Agrees(rec, got)
    ensures got == rec
    decreases rec
  {
    forall i | 0 <= i < |rec.vals| ensures got.vals[i] == rec.vals[i]
    {
      WholeValueAgrees(rec.vals[i], got.vals[i]);
    }
    assert got.vals == rec.vals;
  }

  lemma {:induction false} WholeValueAgrees(v: Value, got: Value)
    requires WholeValue(v) && ValueAgrees(v, got)
    ensures got == v
    decreases v
  {
    match v
    case InlineV(_) =>
    case TailV(_) =>
    case ChildV(c) => if c.Some? { WholeAgrees(c.value, got.child.value); }
    case ChildrenV(rs) => WholeAllAgree(rs, got.children);
    case ElemsV(_, _, rs) => WholeAllAgree(rs, got.elems);
  }

  lemma {:induction false} WholeAllAgree(rs: seq<Record>, got: seq<Record>)
    requires AllAgree(rs, got) && forall i :: 0 <= i < |rs| ==> Whole(rs[i])
    ensures got == rs
    decreases rs
  {
    forall i | 0 <= i < |rs| ensures got[i] == rs[i] { WholeAgrees(rs[i], got[i]); }
  }

  /** A program whose lists are all in stride means a whole record. */
  lemma {:induction false} StraightIsWhole(s: Schema, prog: seq<Write>)
    requires WellFormed(s) && Typed(s, prog) && Straight(s, prog)
    ensures Whole(Meaning(s, prog))
    decreases s, 1, |prog|
  {
    if prog != [] {
      var n := |prog| - 1;
      StraightIsWhole(s, prog[..n]);
      StraightValue(s, prog[n]);
    }
  }

  lemma {:induction false} StraightValue(s: Schema, w: Write)
    requires WellFormed(s) && TypedWrite(s, w) && StraightWrite(s, w)
    ensures WholeValue(ValueOf(s, w))
    decreases s, 0
  {
    assert SubWellFormed(s.fields[w.i]);
    match w
    case WInline(_, _) =>
    case WTail(_, _) =>
    case WChild(i, p) => StraightIsWhole(s.fields[i].sub, p);
    case WChildren(i, ps) =>
      forall k | 0 <= k < |ps| ensures Whole(Meaning(s.fields[i].sub, ps[k]))
      {
        StraightIsWhole(s.fields[i].sub, ps[k]);
      }
    case WElems(i, ps) =>
      forall k | 0 <= k < |ps| ensures Whole(Meaning(s.fields[i].sub, ps[k]))
      {
        StraightIsWhole(s.fields[i].sub, ps[k]);
      }
  }
}
