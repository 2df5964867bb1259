/**
 The zero-copy readers: header validation, and accessors that follow signed object and list
 pointers and unsigned byte pointers through an untrusted message.
 */
module WireReader {
  import opened ByteStrings
  import opened WireSpec

  datatype ParseError = BufferTooSmall | InvalidMagic | InvalidVersion
  datatype ParseResult = Parsed(data: Bytes) | Rejected(error: ParseError)

  function Parse(b: Bytes): (r: ParseResult)
    ensures r.Parsed? ==> HEADER <= |r.data| && r.data <= b
    ensures r.Parsed? ==> |r.data| == U32At(r.data, 12)
  {
    if |b| < HEADER then Rejected(BufferTooSmall)
    else if b[..4] != MAGIC then Rejected(InvalidMagic)
    else
      var version := FromLE(b[4..6]);
      if version != VERSION1 && version != VERSION2 then Rejected(InvalidVersion)
      else
        var size := U32At(b, 12);
        if size < HEADER || size > |b| then Rejected(BufferTooSmall)
        else
          assert b[..size][12..16] == b[12..16];
          Parsed(b[..size])
  }

  /** Parse accepts exactly the buffers that begin with a complete, well-headed message. */
  lemma ParseAccepts(b: Bytes)
    ensures Parse(b).Parsed? <==>
            exists n | HEADER <= n <= |b| :: WellHeaded(b[..n]) && U32At(b[..n], 12) == n
  {
    if Parse(b).Parsed? {
      var n := |Parse(b).data|;
      assert b[..n][..4] == b[..4] && b[..n][4..6] == b[4..6];
      assert WellHeaded(b[..n]) && U32At(b[..n], 12) == n;
    }
    if n :| HEADER <= n <= |b| && WellHeaded(b[..n]) && U32At(b[..n], 12) == n {
      assert b[..n][..4] == b[..4] && b[..n][4..6] == b[4..6] && b[..n][12..16] == b[12..16];
    }
  }

  predicate WellHeaded(m: Bytes)
  {
    HEADER <= |m| && m[..4] == MAGIC && FromLE(m[4..6]) in {VERSION1, VERSION2}
  }

  function Flags(d: Bytes): nat
    requires HEADER <= |d|
  {
    FromLE(d[6..8])
  }

  function Root(d: Bytes): nat
    requires HEADER <= |d|
  {
    U32At(d, 8)
  }

  /** Object.Uint8/16/32/64 of the object at `at`: zero when the field lies past the end. */
  function Uint(d: Bytes, at: nat, off: nat, width: nat): nat
  {
    if at + off + width > |d| then 0 else FromLE(d[at + off..at + off + width])
  }

  function BytesFixedSlice(d: Bytes, at: nat, off: nat, n: nat): (r: Bytes)
    ensures r == [] || (|r| == n && at + off + n <= |d|)
  {
    if n == 0 || at + off + n > |d| then [] else d[at + off..at + off + n]
  }

  /** Where Object.Bytes finds its data: an unsigned forward pointer and a length. */
  function BytesSpan(d: Bytes, at: nat, off: nat): (r: Option<(nat, nat)>)
    ensures r.Some? ==> HEADER <= r.value.0 && r.value.0 + r.value.1 <= |d|
  {
    var pos := at + off;
    if pos + 4 > |d| then None
    else
      var rel := U32At(d, pos);
      if rel == 0 || pos + 8 > |d| then None
      else
        var length := U32At(d, pos + 4);
        var abs := pos + rel;
        if abs < HEADER || abs + length > |d| then None else Some((abs, length))
  }

  function BytesAt(d: Bytes, at: nat, off: nat): Bytes
  {
    match BytesSpan(d, at, off)
    case None => []
    case Some((p, n)) => d[p..p + n]
  }

  /** The shared pointer rule: slot plus signed offset, inside the message and past the header. */
  function Deref(d: Bytes, slot: nat): (r: Option<nat>)
    requires slot + 4 <= |d|
    ensures r.Some? ==> HEADER <= r.value < |d|
  {
    var rel := I32(U32At(d, slot));
    var abs := slot + rel;
    if rel == 0 || abs < HEADER || abs >= |d| then None else Some(abs)
  }

  function ObjectAt(d: Bytes, at: nat, off: nat): (r: Option<nat>)
    ensures r.Some? ==> HEADER <= r.value < |d|
  {
    if at + off + 4 > |d| then None else Deref(d, at + off)
  }

  datatype RawList = RawList(offset: nat, length: nat)

  /** Object.List. */
  function ListAt(d: Bytes, at: nat, off: nat): (r: Option<RawList>)
    ensures r.Some? ==> HEADER <= r.value.offset < |d| && r.value.length <= |d|
  {
    var pos := at + off;
    if pos + 8 > |d| then None
    else
      var length := U32At(d, pos + 4);
      if length > |d| then None
      else
        match Deref(d, pos)
        case None => None
        case Some(abs) => Some(RawList(abs, length))
  }

  /** Object.ListStride. */
  function ListStride(d: Bytes, at: nat, off: nat, stride: nat): (r: Option<RawList>)
    ensures r.Some? ==> HEADER <= r.value.offset < |d|
    ensures r.Some? && stride > 0 ==> r.value.offset + r.value.length * stride <= |d|
  {
    var pos := at + off;
    if pos + 8 > |d| then None
    else
      match Deref(d, pos)
      case None => None
      case Some(abs) =>
        var length := U32At(d, pos + 4);
        if (if stride > 0 then length * stride > |d| - abs else length > |d|) then None
        else Some(RawList(abs, length))
  }

  /** What a stride-checked read grants is what the plain read grants, every element inside. */
  lemma ListStrideIsList(d: Bytes, at: nat, off: nat, stride: nat)
    requires ListStride(d, at, off, stride).Some?
    ensures ListAt(d, at, off) == ListStride(d, at, off, stride)
    ensures var l := ListStride(d, at, off, stride).value;
            stride > 0 ==> forall i :: 0 <= i < l.length ==> l.offset + i * stride + stride <= |d|
  {
    var l := ListStride(d, at, off, stride).value;
    if stride > 0 {
      MulAtLeast(l.length, stride);
      forall i | 0 <= i < l.length
        ensures l.offset + i * stride + stride <= |d|
      {
        MulMonotone(i + 1, l.length, stride);
        assert (i + 1) * stride == i * stride + stride;
      }
    }
  }

  lemma MulMonotone(a: nat, b: nat, k: nat)
    requires a <= b
    ensures a * k <= b * k
  {
    assert b * k == a * k + (b - a) * k;
  }

  /** List.ObjectPtr: element i of a list of out-of-line objects. */
  function ObjectPtr(d: Bytes, l: RawList, i: nat): (r: Option<nat>)
    ensures r.Some? ==> HEADER <= r.value < |d|
  {
    if i >= l.length || l.offset + 4 * i + 4 > |d| then None else Deref(d, l.offset + 4 * i)
  }

  // ---- chains of accessors ----

  datatype Cursor = Obj(offset: nat) | Lst(list: RawList)

  datatype Access =
    | ToObject(off: nat)
    | ToList(off: nat)
    | ToListStride(off: nat, stride: nat)
    | ToElement(i: nat, elemSize: nat)
    | ToElementPtr(i: nat)

  /** One accessor call on a non-null object or list; None for a null result or a wrong kind. */
  function Follow(d: Bytes, c: Cursor, a: Access): Option<Cursor>
  {
    match (c, a)
    case (Obj(at), ToObject(off)) =>
      (match ObjectAt(d, at, off) case None => None case Some(o) => Some(Obj(o)))
    case (Obj(at), ToList(off)) =>
      (match ListAt(d, at, off) case None => None case Some(l) => Some(Lst(l)))
    case (Obj(at), ToListStride(off, stride)) =>
      (match ListStride(d, at, off, stride) case None => None case Some(l) => Some(Lst(l)))
    case (Lst(l), ToElement(i, elemSize)) =>
      if i < l.length then Some(Obj(l.offset + i * elemSize)) else None
    case (Lst(l), ToElementPtr(i)) =>
      (match ObjectPtr(d, l, i) case None => None case Some(o) => Some(Obj(o)))
    case _ => None
  }

  function Walk(d: Bytes, path: seq<Access>): Option<Cursor>
    requires HEADER <= |d|
  {
    if path == [] then Some(Obj(Root(d)))
    else match Walk(d, path[..|path| - 1])
      case None => None
      case Some(c) => Follow(d, c, path[|path| - 1])
  }

  // ---- what the readers return ----

  /** List.Uint8/32/64: zero past the length or past the end. */
  function ListUint(d: Bytes, l: RawList, i: nat, width: nat): nat
  {
    var pos := l.offset + i * width;
    if i >= l.length || pos + width > |d| then 0 else FromLE(d[pos..pos + width])
  }

  /** List.Bytes. */
  function ListBytes(d: Bytes, l: RawList): Bytes
  {
    if l.offset + l.length > |d| then [] else d[l.offset..l.offset + l.length]
  }

  /** n bytes of the input at p when they lie in its first `size` bytes, else nothing. */
  function Within(b: Bytes, size: nat, p: nat, n: nat): Bytes
    requires size <= |b|
  {
    if p + n <= size then b[p..p + n] else []
  }

  /** Every read of an object gives bytes of the input at their stated place inside the message, or nothing. */
  predicate ObjectReadsInside(b: Bytes, d: Bytes, o: nat, off: nat, n: nat)
    requires d <= b
  {
    && Uint(d, o, off, n) == FromLE(Within(b, |d|, o + off, n))
    && BytesFixedSlice(d, o, off, n) == Within(b, |d|, o + off, n)
    && (BytesSpan(d, o, off).None? ==> BytesAt(d, o, off) == [])
    && (BytesSpan(d, o, off).Some? ==>
          var (p, k) := BytesSpan(d, o, off).value;
          HEADER <= p && o + off < p && p + k <= |d| && BytesAt(d, o, off) == b[p..p + k])
  }

  /** The same for every read of a list. */
  predicate ListReadsInside(b: Bytes, d: Bytes, l: RawList, i: nat, n: nat)
    requires d <= b
  {
    && ListUint(d, l, i, n) == (if i < l.length then FromLE(Within(b, |d|, l.offset + i * n, n)) else 0)
    && ListBytes(d, l) == Within(b, |d|, l.offset, l.length)
  }

  lemma {:induction false} SlicesOfInput(b: Bytes, d: Bytes, p: nat, n: nat)
    requires d <= b && p + n <= |d|
    ensures d[p..p + n] == b[p..p + n]
  {
    assert d == b[..|d|];
  }

  lemma {:induction false} ObjectReads(b: Bytes, d: Bytes, o: nat, off: nat, n: nat)
    requires d <= b
    ensures ObjectReadsInside(b, d, o, off, n)
  {
    hide FromLE, U32At;
    assert FromLE([]) == 0 by { EmptyIsZero(); }
    if o + off + n <= |d| {
      SlicesOfInput(b, d, o + off, n);
    }
    if BytesSpan(d, o, off).Some? {
      var (p, k) := BytesSpan(d, o, off).value;
      SlicesOfInput(b, d, p, k);
      SpanForward(d, o, off);
    }
  }

  lemma {:induction false} EmptyIsZero()
    ensures FromLE([]) == 0
  {
  }

  /** The unsigned pointer of a bytes field only points forward. */
  lemma {:induction false} SpanForward(d: Bytes, o: nat, off: nat)
    requires BytesSpan(d, o, off).Some?
    ensures o + off < BytesSpan(d, o, off).value.0
  {
    hide U32At;
  }

  lemma {:induction false} ListReads(b: Bytes, d: Bytes, l: RawList, i: nat, n: nat)
    requires d <= b
    ensures ListReadsInside(b, d, l, i, n)
  {
    hide FromLE;
    assert FromLE([]) == 0 by { EmptyIsZero(); }
    var pos := l.offset + i * n;
    if pos + n <= |d| {
      SlicesOfInput(b, d, pos, n);
    }
    if l.offset + l.length <= |d| {
      SlicesOfInput(b, d, l.offset, l.length);
    }
  }

  // ---- inline elements ----

  /** An inline element is computed, not followed: it lies in the message exactly when its end does. */
  lemma {:induction false} InlineElementInsideIff(d: Bytes, l: RawList, i: nat, elemSize: nat)
    requires i < l.length
    ensures Follow(d, Lst(l), ToElement(i, elemSize)).Some?
    ensures var o := Follow(d, Lst(l), ToElement(i, elemSize)).value.offset;
      o + elemSize <= |d| <==> l.offset + (i + 1) * elemSize <= |d|
  {
    assert (i + 1) * elemSize == i * elemSize + elemSize;
  }

  /** A list read with the stride of its elements has every one of them inside. */
  lemma {:induction false} StrideElementInside(d: Bytes, at: nat, off: nat, stride: nat, i: nat)
    requires ListStride(d, at, off, stride).Some? && stride > 0 && i < ListStride(d, at, off, stride).value.length
    ensures var c := Follow(d, Lst(ListStride(d, at, off, stride).value), ToElement(i, stride));
      c.Some? && c.value.Obj? && HEADER <= c.value.offset && c.value.offset + stride <= |d|
  {
    ListStrideIsList(d, at, off, stride);
    MulMonotone(0, i, stride);
  }

  /** Without that, an element can be as far out as its caller's element size says. */
  lemma {:induction false} InlineElementLeaves(d: Bytes, l: RawList, n: nat)
    requires l.length >= 2
    ensures var c := Follow(d, Lst(l), ToElement(1, n)); c.Some? && c.value.Obj? && c.value.offset >= n
  {
  }

  /** Where Go's 64-bit arithmetic puts element i. */
  function GoOffset(l: RawList, i: nat, elemSize: nat): int
  {
    Wrap64(l.offset + Wrap64(i * elemSize))
  }

  /** Exactly when that is where the element is. */
  lemma {:induction false} ElementOffsetExact(l: RawList, i: nat, elemSize: nat)
    ensures GoOffset(l, i, elemSize) == l.offset + i * elemSize <==> l.offset + i * elemSize < TWO63
  {
    var x := i * elemSize;
    var k := (x + TWO63) / TWO64;
    assert Wrap64(x) == x - k * TWO64;
    WrapShift(l.offset + x, k);
    if l.offset + x < TWO63 {
      Wrap64Exact(l.offset + x);
    }
  }

  /** Element 2 of elements of 2^63 - 1 bytes begins two bytes before its list. */
  lemma {:induction false} ElementWraps(l: RawList)
    requires 2 <= l.offset < TWO63
    ensures GoOffset(l, 2, TWO63 - 1) == l.offset - 2
  {
    WrapShift(l.offset + 2 * (TWO63 - 1), 1);
    Wrap64Exact(l.offset - 2);
    assert Wrap64(2 * (TWO63 - 1)) == -2;
  }

  /** Followed by a pointer, rather than taken from the root word or computed as an inline element. */
  predicate ByPointer(path: seq<Access>)
  {
    path != [] && (path[|path| - 1].ToObject? || path[|path| - 1].ToElementPtr?)
  }

  /**
   Wherever a chain of accessors leads in a parsed message: an object followed by a pointer starts inside
   the message and past the header, an inline element past the header; a list starts inside and past the
   header and is no longer than the message; and every read of what was reached gives bytes of the input
   at their stated place inside the message, or nothing.
   */
  lemma {:induction false} ChainsStayInside(b: Bytes, path: seq<Access>, off: nat, i: nat, n: nat)
    requires Parse(b).Parsed?
    ensures var d := Parse(b).data;
            match Walk(d, path)
            case None => true
            case Some(Obj(o)) =>
              && (path != [] ==> HEADER <= o) && (ByPointer(path) ==> o < |d|)
              && ObjectReadsInside(b, d, o, off, n)
            case Some(Lst(l)) =>
              && HEADER <= l.offset < |d| && l.length <= |d|
              && ListReadsInside(b, d, l, i, n)
  {
    hide ObjectReadsInside, ListReadsInside, U32At;
    var d := Parse(b).data;
    if Walk(d, path).Some? {
      StepInside(b, path);
      match Walk(d, path).value
      case Obj(o) => ObjectReads(b, d, o, off, n);
      case Lst(l) => ListReads(b, d, l, i, n);
    }
  }

  lemma {:induction false} StepInside(b: Bytes, path: seq<Access>)
    requires Parse(b).Parsed?
    ensures var d := Parse(b).data;
            match Walk(d, path)
            case None => true
            case Some(Obj(o)) => (path != [] ==> HEADER <= o) && (ByPointer(path) ==> o < |d|)
            case Some(Lst(l)) => HEADER <= l.offset < |d| && l.length <= |d|
  {
    hide U32At;
    var d := Parse(b).data;
    if path != [] && Walk(d, path).Some? {
      var init := path[..|path| - 1];
      StepInside(b, init);
      var c, a := Walk(d, init).value, path[|path| - 1];
      match (c, a)
      case (Obj(at), ToListStride(o, stride)) =>
        ListStrideIsList(d, at, o, stride);
      case (Lst(l), ToElement(k, elemSize)) =>
        MulMonotone(0, k, elemSize);
      case _ =>
    }
  }
}
