/**
 The message builder: a growing buffer with relative pointers patched in place.

 The part of the buffer that counts is the written prefix, buf[..pos].  Every operation of the
 builder is specified by a function of that prefix alone; what lies beyond pos (old bytes of a
 reused buffer) never shows in a result.
 */
module WireSpec {
  import opened ByteStrings

  const HEADER: nat := 16
  const ALIGNMENT: nat := 8
  const MAGIC: Bytes := [0x5A, 0x41, 0x50, 0x00]
  const VERSION1: nat := 1
  const VERSION2: nat := 2

  /** Go's conversion of an int to uint32. */
  function U32(x: int): (u: nat)
    ensures u < TWO32
  {
    x % TWO32
  }

  /** Go's conversion of a uint32 to int32. */
  function I32(u: nat): int
    requires u < TWO32
  {
    if u < TWO31 then u else u - TWO32
  }

  /** A uint32, least significant byte first. */
  function LE32(v: nat): (r: Bytes)
    requires v < TWO32
    ensures |r| == 4
  {
    [v % 256, v / 256 % 256, v / 0x1_0000 % 256, v / 0x100_0000]
  }

  function U32At(d: Bytes, p: nat): (u: nat)
    requires p + 4 <= |d|
    ensures u < TWO32
  {
    d[p] as int + 0x100 * (d[p + 1] as int) + 0x1_0000 * (d[p + 2] as int) + 0x100_0000 * (d[p + 3] as int)
  }

  lemma {:induction false} WordRoundTrip(d: Bytes, p: nat, v: nat)
    requires v < TWO32 && p + 4 <= |d| && d[p..p + 4] == LE32(v)
    ensures U32At(d, p) == v
  {
    var w := LE32(v);
    SliceWord(d, p, w);
    ByteDigits(v);
  }

  lemma {:induction false} SliceWord(d: Bytes, p: nat, w: Bytes)
    requires p + 4 <= |d| && d[p..p + 4] == w
    ensures d[p] == w[0] && d[p + 1] == w[1] && d[p + 2] == w[2] && d[p + 3] == w[3]
  {
  }

  /** Four bytes stored with Put read back as the word they encode. */
  lemma WordStored(s: Bytes, p: nat, v: nat)
    requires v < TWO32 && p + 4 <= |s|
    ensures U32At(Put(s, p, LE32(v)), p) == v
  {
    PutSlice(s, p, LE32(v));
    WordRoundTrip(Put(s, p, LE32(v)), p, v);
  }

  /** A relative pointer written with U32 and read with I32 comes back. */
  lemma PointerRoundTrip(rel: int)
    requires -TWO31 <= rel < TWO31
    ensures I32(U32(rel)) == rel
    ensures 0 <= rel ==> U32(rel) == rel
  {
  }

  function Padding(pos: nat): (p: nat)
    ensures p < 8 && (pos + p) % 8 == 0
  {
    (8 - pos % 8) % 8
  }

  function AlignS(s: Bytes): (r: Bytes)
    ensures |s| <= |r| && r[..|s|] == s
  {
    s + Zeros(Padding(|s|))
  }

  /** ensureField and ReserveFixed: extend the object at start to endOffset bytes, zero-filled. */
  function ReserveS(s: Bytes, start: nat, endOffset: nat): (r: Bytes)
    ensures |r| == if start + endOffset > |s| then start + endOffset else |s|
    ensures |s| <= |r| && r[..|s|] == s
    ensures forall i :: |s| <= i < |r| ==> r[i] == 0
  {
    if start + endOffset > |s| then s + Zeros(start + endOffset - |s|) else s
  }

  function StartObjectS(s: Bytes, size: nat): (r: (Bytes, nat))
  {
    var a := AlignS(s);
    (ReserveS(a, |a|, size), |a|)
  }

  /** SetUint8/16/32/64 and SetBytesFixed: a fixed-width store into the payload. */
  function SetFixedS(s: Bytes, start: nat, off: nat, d: Bytes): (r: Bytes)
    ensures |s| <= |r|
  {
    Put(ReserveS(s, start, off + |d|), start + off, d)
  }

  function SetBytesS(s: Bytes, start: nat, off: nat, v: Bytes): (r: Bytes)
    requires start + off + 8 <= |s|
    ensures |r| == |s| + |v|
  {
    if v == [] then Put(s, start + off, Zeros(8))
    else Put(s + v, start + off, LE32(U32(|s| - (start + off))) + LE32(U32(|v|)))
  }

  /** d written over s from position at, as far as s goes. */
  function PutClip(s: Bytes, at: nat, d: Bytes): (r: Bytes)
    ensures |r| == |s|
    ensures forall i :: 0 <= i < |s| ==> r[i] == if at <= i < at + |d| then d[i - at] else s[i]
  {
    if at >= |s| then s else if at + |d| <= |s| then Put(s, at, d) else Put(s, at, d[..|s| - at])
  }

  /** The slot of a bytes field at `at` whose data is at `dataPos`: offset and length, zeros for no data. */
  function BytesSlot(dataPos: nat, at: nat, v: Bytes): (r: Bytes)
    ensures |r| == 8
  {
    if v == [] then Zeros(8) else LE32(U32(dataPos - at)) + LE32(U32(|v|))
  }

  /** Inside the written bytes, patching the slot is all there is to it. */
  lemma {:induction false} SlotSet(s: Bytes, start: nat, off: nat, v: Bytes)
    requires start + off + 8 <= |s|
    ensures PutClip(s + v, start + off, BytesSlot(|s|, start + off, v)) == SetBytesS(s, start, off, v)
  {
    hide LE32, U32, Put;
    assert s + [] == s;
  }

  function SetObjectS(s: Bytes, start: nat, off: nat, target: nat): (r: Bytes)
    ensures |s| <= |r|
  {
    SetFixedS(s, start, off, if target == 0 then Zeros(4) else LE32(U32(target - (start + off))))
  }

  function SetListS(s: Bytes, start: nat, off: nat, target: nat, length: nat): (r: Bytes)
    ensures |s| <= |r|
  {
    SetFixedS(s, start, off,
              if target == 0 || length == 0 then Zeros(8)
              else LE32(U32(target - (start + off))) + LE32(U32(length)))
  }

  /** AddObjectPtr: append one slot that points at target, relative to the slot itself. */
  function AddPtrS(s: Bytes, target: nat): (r: Bytes)
    ensures |r| == |s| + 4 && r[..|s|] == s
  {
    s + if target == 0 then Zeros(4) else LE32(U32(target - |s|))
  }

  function FinishS(s: Bytes, root: nat): (r: Bytes)
    requires HEADER <= |s|
    ensures |r| == |s|
  {
    Put(Put(s, 8, LE32(U32(root))), 12, LE32(U32(|s|)))
  }

  function InitialS(version: nat): (r: Bytes)
    ensures |r| == HEADER
  {
    MAGIC + LE(version, 2) + Zeros(10)
  }
}

module WireBuilder {
  import opened ByteStrings
  import opened WireSpec
  import opened WireReader
  import opened Pointers

  /** A handle on an object under construction (a value in the Go code too). */
  datatype ObjectBuilder = ObjectBuilder(startPos: nat, dataSize: nat)

  class Builder {
    var buf: array<byte>
    var pos: nat
    var rootOffset: nat
    const version: nat

    ghost predicate Valid()
      reads this, buf
    {
      HEADER <= pos <= buf.Length && buf[..6] == MAGIC + LE(version, 2)
    }

    /** The bytes written so far. */
    ghost function Written(): (s: Bytes)
      requires Valid()
      reads this, buf
      ensures HEADER <= |s| == pos
    {
      buf[..pos]
    }

    constructor (capacity: nat, version: nat)
      ensures Valid() && fresh(buf)
      ensures Written() == InitialS(version) && rootOffset == 0 && this.version == version
    {
      var cap := if capacity < HEADER then 256 else capacity;
      var a := new byte[cap](_ => 0);
      var hdr := InitialS(version);
      for i := 0 to HEADER
        invariant a[..i] == hdr[..i]
      {
        a[i] := hdr[i];
      }
      assert a[..HEADER] == hdr;
      assert hdr[..6] == MAGIC + LE(version, 2);
      assert a[..6] == hdr[..6];
      this.buf, this.pos, this.rootOffset, this.version := a, HEADER, 0, version;
    }

    /** The buffer keeps its old contents, header words included. */
    method Reset()
      requires Valid()
      modifies this
      ensures Valid() && buf == old(buf)
      ensures Written() == old(buf[..HEADER]) && rootOffset == 0
    {
      pos, rootOffset := HEADER, 0;
    }

    method Grow(n: nat)
      requires Valid()
      modifies this`buf
      ensures Valid() && Written() == old(Written()) && pos + n <= buf.Length
      ensures buf == old(buf) || fresh(buf)
    {
      if pos + n <= buf.Length {
        return;
      }
      var newCap := buf.Length * 2;
      if newCap < pos + n {
        newCap := pos + n;
      }
      var newBuf := new byte[newCap](_ => 0);
      for i := 0 to pos
        invariant buf == old(buf)
        invariant newBuf[..i] == buf[..i]
      {
        newBuf[i] := buf[i];
      }
      assert newBuf[..6] == newBuf[..pos][..6] == buf[..pos][..6] == buf[..6];
      buf := newBuf;
    }

    /** Zero-fill from pos to end and move the cursor there. */
    method ZeroTo(end: nat)
      requires Valid() && pos <= end <= buf.Length
      modifies this`pos, buf
      ensures Valid() && buf == old(buf)
      ensures Written() == old(Written()) + Zeros(end - old(pos))
    {
      while pos < end
        invariant old(pos) <= pos <= end
        invariant Valid()
        invariant Written() == old(Written()) + Zeros(pos - old(pos))
      {
        buf[pos] := 0;
        pos := pos + 1;
        assert buf[..6] == buf[..pos - 1][..6];
      }
    }

    method Align()
      requires Valid()
      modifies this`buf, this`pos, buf
      ensures Valid() && (buf == old(buf) || fresh(buf))
      ensures Written() == AlignS(old(Written()))
    {
      var padding := Padding(pos);
      Grow(padding);
      ZeroTo(pos + padding);
    }

    method EnsureField(ob: ObjectBuilder, endOffset: nat)
      requires Valid()
      modifies this`buf, this`pos, buf
      ensures Valid() && (buf == old(buf) || fresh(buf))
      ensures Written() == ReserveS(old(Written()), ob.startPos, endOffset)
    {
      var needed := ob.startPos + endOffset;
      if needed > pos {
        Grow(needed - pos);
        ZeroTo(needed);
      }
    }

    method StartObject(dataSize: nat) returns (ob: ObjectBuilder)
      requires Valid()
      modifies this`buf, this`pos, buf
      ensures Valid() && (buf == old(buf) || fresh(buf))
      ensures HEADER <= ob.startPos && ob.startPos % ALIGNMENT == 0 && ob.dataSize == dataSize
      ensures (Written(), ob.startPos) == StartObjectS(old(Written()), dataSize)
    {
      Align();
      ob := ObjectBuilder(pos, dataSize);
      EnsureField(ob, dataSize);
    }

    /** Copy d over the written bytes from position at. */
    method Store(at: nat, d: Bytes)
      requires Valid() && HEADER <= at && at + |d| <= pos
      modifies buf
      ensures Valid()
      ensures Written() == Put(old(Written()), at, d)
    {
      for i := 0 to |d|
        invariant Valid()
        invariant Written() == Put(old(Written()), at, d[..i])
      {
        buf[at + i] := d[i];
        assert buf[..6] == buf[..pos][..6];
        assert d[..i + 1] == d[..i] + [d[i]];
      }
      assert d[..|d|] == d;
    }

    /** Copy d after the written bytes. */
    method Append(d: Bytes)
      requires Valid()
      modifies this`buf, this`pos, buf
      ensures Valid() && (buf == old(buf) || fresh(buf))
      ensures Written() == old(Written()) + d
    {
      Grow(|d|);
      label grown:
      for i := 0 to |d|
        invariant Valid() && pos == old@grown(pos) && pos + |d| <= buf.Length
        invariant buf == old@grown(buf)
        invariant buf[..pos + i] == old(Written()) + d[..i]
      {
        buf[pos + i] := d[i];
        assert buf[..6] == buf[..pos + i][..6];
        assert d[..i + 1] == d[..i] + [d[i]];
      }
      pos := pos + |d|;
      assert d[..|d|] == d;
    }

    /** ensureField followed by the store: the fixed-width writes all take this path. */
    method SetFixed(ob: ObjectBuilder, fieldOffset: nat, d: Bytes)
      requires Valid() && HEADER <= ob.startPos
      modifies this`buf, this`pos, buf
      ensures Valid() && (buf == old(buf) || fresh(buf))
      ensures Written() == SetFixedS(old(Written()), ob.startPos, fieldOffset, d)
    {
      hide Put, ReserveS;
      EnsureField(ob, fieldOffset + |d|);
      Store(ob.startPos + fieldOffset, d);
    }

    method SetBytesFixed(ob: ObjectBuilder, fieldOffset: nat, v: Bytes)
      requires Valid() && HEADER <= ob.startPos
      modifies this`buf, this`pos, buf
      ensures Valid() && (buf == old(buf) || fresh(buf))
      ensures v == [] ==> Written() == old(Written())
      ensures v != [] ==> Written() == SetFixedS(old(Written()), ob.startPos, fieldOffset, v)
    {
      if |v| == 0 {
        return;
      }
      SetFixed(ob, fieldOffset, v);
    }

    /** Copy d into the buffer from position at; bytes past the written ones are not part of the message. */
    method Patch(at: nat, d: Bytes)
      requires Valid() && HEADER <= at && at + |d| <= buf.Length
      modifies buf
      ensures Valid()
      ensures Written() == PutClip(old(Written()), at, d)
    {
      for i := 0 to |d|
        invariant Valid()
        invariant forall k :: 0 <= k < pos ==> buf[k] == if at <= k < at + i then d[k - at] else old(buf[k])
      {
        buf[at + i] := d[i];
        assert forall k :: 0 <= k < 6 ==> buf[k] == old(buf[k]);
        assert buf[..6] == old(buf[..6]);
      }
    }

    /**
     The data goes after the written bytes and the slot gets its relative offset and length. A slot past
     the written bytes is patched in the spare part of the buffer; past the buffer the store panics.
     */
    method SetBytes(ob: ObjectBuilder, fieldOffset: nat, v: Bytes) returns (ok: bool)
      requires Valid() && HEADER <= ob.startPos
      modifies this`buf, this`pos, buf
      ensures Valid() && (buf == old(buf) || fresh(buf))
      ensures ok <==> ob.startPos + fieldOffset + 8 <= buf.Length
      ensures pos == old(pos) + |v|
      ensures ok ==> Written() == PutClip(old(Written()) + v, ob.startPos + fieldOffset,
                                          BytesSlot(old(pos), ob.startPos + fieldOffset, v))
      ensures ob.startPos + fieldOffset + 8 <= old(pos) ==>
        ok && Written() == SetBytesS(old(Written()), ob.startPos, fieldOffset, v)
    {
      hide SetBytesS, BytesSlot, PutClip, Put;
      var fieldAbsPos := ob.startPos + fieldOffset;
      var dataPos := pos;
      if fieldAbsPos + 8 <= pos {
        SlotSet(Written(), ob.startPos, fieldOffset, v);
      }
      if |v| != 0 {
        Append(v);
      }
      ok := fieldAbsPos + 8 <= buf.Length;
      if ok {
        Patch(fieldAbsPos, BytesSlot(dataPos, fieldAbsPos, v));
      }
      assert old(Written()) + [] == old(Written());
    }

    method SetObject(ob: ObjectBuilder, fieldOffset: nat, objOffset: nat)
      requires Valid() && HEADER <= ob.startPos
      modifies this`buf, this`pos, buf
      ensures Valid() && (buf == old(buf) || fresh(buf))
      ensures Written() == SetObjectS(old(Written()), ob.startPos, fieldOffset, objOffset)
      ensures HEADER <= objOffset < pos && Reachable(ob.startPos + fieldOffset, objOffset) ==>
        ObjectAt(Written(), ob.startPos, fieldOffset) ==
          if objOffset == ob.startPos + fieldOffset then None else Some(objOffset)
    {
      hide LE32, U32, SetFixedS, ObjectAt;
      if HEADER <= objOffset < |SetObjectS(Written(), ob.startPos, fieldOffset, objOffset)|
          && Reachable(ob.startPos + fieldOffset, objOffset) {
        ObjectSet(Written(), ob.startPos, fieldOffset, objOffset);
      }
      if objOffset == 0 {
        SetFixed(ob, fieldOffset, Zeros(4));
        return;
      }
      SetFixed(ob, fieldOffset, LE32(U32(objOffset - (ob.startPos + fieldOffset))));
    }

    method SetList(ob: ObjectBuilder, fieldOffset: nat, listOffset: nat, length: nat)
      requires Valid() && HEADER <= ob.startPos
      modifies this`buf, this`pos, buf
      ensures Valid() && (buf == old(buf) || fresh(buf))
      ensures Written() == SetListS(old(Written()), ob.startPos, fieldOffset, listOffset, length)
      ensures HEADER <= listOffset < pos && Reachable(ob.startPos + fieldOffset, listOffset)
              && listOffset != ob.startPos + fieldOffset && 0 < length <= pos && length < TWO32 ==>
        ListAt(Written(), ob.startPos, fieldOffset) == Some(RawList(listOffset, length))
    {
      hide LE32, U32, SetFixedS, ListAt;
      if HEADER <= listOffset < |SetListS(Written(), ob.startPos, fieldOffset, listOffset, length)|
          && Reachable(ob.startPos + fieldOffset, listOffset) && listOffset != ob.startPos + fieldOffset
          && 0 < length < TWO32 {
        ListSet(Written(), ob.startPos, fieldOffset, listOffset, length, 0);
      }
      if listOffset == 0 || length == 0 {
        SetFixed(ob, fieldOffset, Zeros(8));
        return;
      }
      SetFixed(ob, fieldOffset,
               LE32(U32(listOffset - (ob.startPos + fieldOffset))) + LE32(U32(length)));
    }

    method StartList() returns (startPos: nat)
      requires Valid()
      modifies this`buf, this`pos, buf
      ensures Valid() && (buf == old(buf) || fresh(buf))
      ensures Written() == AlignS(old(Written())) && startPos == pos
    {
      Align();
      startPos := pos;
    }

    method AddObjectPtr(target: nat)
      requires Valid()
      modifies this`buf, this`pos, buf
      ensures Valid() && (buf == old(buf) || fresh(buf))
      ensures Written() == AddPtrS(old(Written()), target)
    {
      if target == 0 {
        Append(Zeros(4));
      } else {
        Append(LE32(U32(target - pos)));
      }
    }

    /** Raw bytes at the next aligned position; offset 0 stands for "nothing written". */
    method WriteBytes(data: Bytes) returns (offset: nat)
      requires Valid()
      modifies this`buf, this`pos, buf
      ensures Valid() && (buf == old(buf) || fresh(buf))
      ensures data == [] ==> offset == 0 && Written() == old(Written())
      ensures data != [] ==> Written() == AlignS(old(Written())) + data && offset + |data| == pos
    {
      if |data| == 0 {
        return 0;
      }
      Align();
      offset := pos;
      Append(data);
    }

    method FinishAsRoot(ob: ObjectBuilder) returns (offset: nat)
      requires Valid()
      modifies this`rootOffset
      ensures Valid() && Written() == old(Written())
      ensures rootOffset == offset == ob.startPos
    {
      offset := ob.startPos;
      rootOffset := offset;
    }

    method StoreHeader(at: nat, d: Bytes)
      requires Valid() && 6 <= at && at + |d| <= HEADER
      modifies buf
      ensures Valid()
      ensures Written() == Put(old(Written()), at, d)
    {
      for i := 0 to |d|
        invariant Valid()
        invariant Written() == Put(old(Written()), at, d[..i])
      {
        buf[at + i] := d[i];
        assert buf[..6] == buf[..pos][..6];
        assert d[..i + 1] == d[..i] + [d[i]];
      }
      assert d[..|d|] == d;
    }

    method Finish() returns (msg: Bytes)
      requires Valid()
      modifies buf
      ensures Valid()
      ensures msg == Written() == FinishS(old(Written()), rootOffset)
    {
      StoreHeader(8, LE32(U32(rootOffset)));
      StoreHeader(12, LE32(U32(pos)));
      msg := buf[..pos];
    }

    method FinishWithFlags(flags: nat) returns (msg: Bytes)
      requires Valid() && flags < 0x1_0000
      modifies buf
      ensures Valid()
      ensures msg == Written() == FinishS(Put(old(Written()), 6, LE(flags, 2)), rootOffset)
    {
      StoreHeader(6, LE(flags, 2));
      msg := Finish();
    }
  }
}
