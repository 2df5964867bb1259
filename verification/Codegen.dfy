/** The schema layout check of the code generator, and the constructor it emits. */
module Codegen {
  import opened ByteStrings
  import opened WireSpec
  import opened WireReader
  import opened Trees
  import opened TreeWriting
  import opened TreeBuild
  import opened InlineLists
  import opened InlineMessages

  /** Go's uint32 and, on 64-bit machines, int. */
  type uint32 = x: int | 0 <= x < 0x1_0000_0000
  type int64 = x: int | -0x8000_0000_0000_0000 <= x < 0x8000_0000_0000_0000

  /** A declared field; a list or a nested object names the schema it holds. */
  datatype Field = Field(name: string, typ: string, offset: uint32, elem: Option<ElemDecl>, nested: Option<ElemDecl>)

  /** The schema of list elements or of a nested object, which is emitted on its own. */
  datatype ElemDecl = ElemDecl(size: int64, fields: seq<Field>)

  datatype SchemaDecl = SchemaDecl(size: int64, element: bool, fields: seq<Field>)

  // ---- the "bytes<N>" parser ----

  const BYTES: string := "bytes"

  predicate IsDigit(c: char)
  {
    '0' <= c <= '9'
  }

  function DigitValue(c: char): int
  {
    c as int - '0' as int
  }

  /** The number a digit string spells, unbounded. */
  function Decimal(s: string): int
  {
    if s == [] then 0 else 10 * Decimal(s[..|s| - 1]) + DigitValue(s[|s| - 1])
  }

  /** The width of a bytes<N> type. */
  function BytesWidth(t: string): (r: Option<int>)
    ensures r.Some? ==> 0 < r.value < TWO63
  {
    if |t| <= 5 || t[..5] != BYTES || exists i | 5 <= i < |t| :: !IsDigit(t[i]) then None
    else
      var n := Wrap64(Decimal(t[5..]));
      if n <= 0 then None else Some(n)
  }

  /** Wrapping at every step or once at the end makes no difference. */
  lemma {:induction false} WrapStep(n: int, d: int)
    ensures Wrap64(Wrap64(n) * 10 + d) == Wrap64(n * 10 + d)
  {
    var k := (n + TWO63) / TWO64;
    assert Wrap64(n) == n - k * TWO64;
    assert Wrap64(n) * 10 + d == n * 10 + d - (10 * k) * TWO64;
    WrapShift(n * 10 + d, 10 * k);
  }

  method IsBytes(t: string) returns (n: int, ok: bool)
    ensures ok == BytesWidth(t).Some?
    ensures if ok then n == BytesWidth(t).value else n == 0
  {
    if |t| <= |BYTES| || t[..|BYTES|] != BYTES {
      return 0, false;
    }
    n := 0;
    for i := |BYTES| to |t|
      invariant forall j :: 5 <= j < i ==> IsDigit(t[j])
      invariant n == Wrap64(Decimal(t[5..i]))
    {
      var c := t[i];
      if c < '0' || c > '9' {
        return 0, false;
      }
      assert t[5..i + 1][..i - 5] == t[5..i];
      WrapStep(Decimal(t[5..i]), DigitValue(c));
      n := Wrap64(n * 10 + DigitValue(c));
    }
    assert t[5..|t|] == t[5..];
    if n <= 0 {
      return 0, false;
    }
    ok := true;
  }

  // ---- field widths ----

  function ScalarWidth(t: string): Option<int>
  {
    if t in {"bool", "int8", "uint8"} then Some(1)
    else if t in {"int16", "uint16"} then Some(2)
    else if t in {"int32", "uint32", "float32"} then Some(4)
    else if t in {"int64", "uint64", "float64"} then Some(8)
    else None
  }

  /** A numeric type has the width its name says in bits. */
  lemma {:induction false} ScalarBits(bits: string)
    requires bits in {"8", "16", "32", "64"}
    ensures ScalarWidth("int" + bits) == ScalarWidth("uint" + bits) == Some(Decimal(bits) / 8)
    ensures bits in {"32", "64"} ==> ScalarWidth("float" + bits) == Some(Decimal(bits) / 8)
  {
    Spelled(bits);
    var (i, u, f) := ("int" + bits, "uint" + bits, "float" + bits);
    assert |i| == 3 + |bits| && |u| == 4 + |bits| && |f| == 5 + |bits|;
    assert i[0] == 'i' && u[0] == 'u' && f[0] == 'f' && i[3] == u[4] == f[5] == bits[0];
    if bits == "8" {
      assert i == "int8" && u == "uint8";
    } else if bits == "16" {
      assert i == "int16" && u == "uint16";
    } else if bits == "32" {
      assert i == "int32" && u == "uint32" && f == "float32";
    } else {
      assert i == "int64" && u == "uint64" && f == "float64";
    }
  }

  lemma {:induction false} Spelled(bits: string)
    requires bits in {"8", "16", "32", "64"}
    ensures Decimal(bits) == if bits == "8" then 8 else if bits == "16" then 16 else if bits == "32" then 32 else 64
  {
    assert bits[..|bits| - 1] == if bits == "8" then "" else [bits[0]];
    assert Decimal([bits[0]]) == DigitValue(bits[0]) by { assert [bits[0]][..0] == ""; }
  }

  predicate IsVariable(t: string)
  {
    t == "string" || t == "bytes"
  }

  function FieldByteSize(f: Field): (r: Option<int>)
    ensures r.Some? ==> 0 < r.value < TWO63
  {
    if f.elem.Some? then Some(8)
    else if f.nested.Some? then Some(4)
    else if BytesWidth(f.typ).Some? then BytesWidth(f.typ)
    else if IsVariable(f.typ) then Some(8)
    else ScalarWidth(f.typ)
  }

  // ---- the layout check ----

  datatype Verdict = Accept | UnknownType | PastEnd | Overlap | IndexPanic

  ghost predicate Covers(f: Field, p: int)
  {
    FieldByteSize(f).Some? && f.offset <= p < f.offset + FieldByteSize(f).value
  }

  /** All types known, all fields inside the payload, pairwise disjoint and off the kind byte. */
  ghost predicate WellLaid(s: SchemaDecl)
  {
    && (forall i :: 0 <= i < |s.fields| ==> FieldByteSize(s.fields[i]).Some?)
    && (forall i :: 0 <= i < |s.fields| ==> s.fields[i].offset + FieldByteSize(s.fields[i]).value <= s.size)
    && (forall i, j, p :: 0 <= i < j < |s.fields| && Covers(s.fields[i], p) ==> !Covers(s.fields[j], p))
    && (!s.element ==> forall i :: 0 <= i < |s.fields| ==> !Covers(s.fields[i], 0))
  }

  function NamesOf(s: SchemaDecl): seq<string>
  {
    seq(|s.fields|, i requires 0 <= i < |s.fields| => s.fields[i].name)
  }

  /** The owner marks are field names, so an unnamed field leaves no mark for the fields after it. */
  predicate NamedButLast(names: seq<string>)
  {
    forall i :: 0 <= i < |names| - 1 ==> names[i] != ""
  }

  /** Where a field ends, before any overflow. */
  function End(f: Field): int
    requires FieldByteSize(f).Some?
  {
    f.offset + FieldByteSize(f).value
  }

  /** The mark on byte p once the fields before k are marked: the last name written there. */
  ghost function OwnerOf(s: SchemaDecl, k: nat, p: int): string
    requires k <= |s.fields|
  {
    if k == 0 then (if !s.element && p == 0 then "<kind>" else "")
    else if Covers(s.fields[k - 1], p) then s.fields[k - 1].name
    else OwnerOf(s, k - 1, p)
  }

  ghost predicate Fits(s: SchemaDecl, k: nat)
    requires k < |s.fields|
  {
    var width := FieldByteSize(s.fields[k]);
    width.Some? && s.fields[k].offset + width.value <= s.size
  }

  ghost predicate Unowned(s: SchemaDecl, k: nat)
    requires k < |s.fields|
  {
    forall p :: Covers(s.fields[k], p) ==> OwnerOf(s, k, p) == ""
  }

  /** No byte of field k inside the payload has an owner. */
  ghost predicate UnownedInside(s: SchemaDecl, k: nat)
    requires k < |s.fields|
  {
    forall p :: Covers(s.fields[k], p) && p < s.size ==> OwnerOf(s, k, p) == ""
  }

  /** The first loop's test: the type is known and the end, computed in 64 bits, is not past the size. */
  predicate BoundsPass(s: SchemaDecl, i: nat)
    requires i < |s.fields|
  {
    FieldByteSize(s.fields[i]).Some? && Wrap64(End(s.fields[i])) <= s.size
  }

  method CheckBounds(s: SchemaDecl) returns (v: Verdict)
    ensures v == Accept <==> forall i :: 0 <= i < |s.fields| ==> BoundsPass(s, i)
    ensures v in {Accept, UnknownType, PastEnd}
  {
    for i := 0 to |s.fields|
      invariant forall j :: 0 <= j < i ==> BoundsPass(s, j)
    {
      var f := s.fields[i];
      match FieldByteSize(f)
      case None =>
        assert !BoundsPass(s, i);
        return UnknownType;
      case Some(width) =>
        if Wrap64(f.offset + width) > s.size {
          assert !BoundsPass(s, i);
          return PastEnd;
        }
    }
    v := Accept;
  }

  ghost predicate Marks(owner: seq<string>, s: SchemaDecl, k: nat)
    requires k <= |s.fields|
  {
    |owner| == s.size && forall p :: 0 <= p < s.size ==> owner[p] == OwnerOf(s, k, p)
  }

  /** Mark the bytes of field k; stop at a byte that already has an owner, or past the array. */
  method MarkField(s: SchemaDecl, owner: array<string>, k: nat) returns (v: Verdict)
    requires k < |s.fields| && FieldByteSize(s.fields[k]).Some? && Marks(owner[..], s, k)
    modifies owner
    ensures v in {Accept, Overlap, IndexPanic}
    ensures v == Overlap <==> !UnownedInside(s, k)
    ensures v == IndexPanic <==> !Fits(s, k) && UnownedInside(s, k)
    ensures v == Accept ==> Marks(owner[..], s, k + 1)
  {
    hide FieldByteSize;
    var f := s.fields[k];
    var width := FieldByteSize(f).value;
    for i := 0 to width
      invariant i > 0 ==> f.offset + i <= s.size
      invariant forall p :: f.offset <= p < f.offset + i ==> OwnerOf(s, k, p) == ""
      invariant forall p :: 0 <= p < s.size ==>
                  owner[p] == if f.offset <= p < f.offset + i then f.name else OwnerOf(s, k, p)
    {
      var p := f.offset + i;
      if p >= owner.Length {
        return IndexPanic;
      }
      if owner[p] != "" {
        assert Covers(f, p);
        return Overlap;
      }
      owner[p] := f.name;
    }
    v := Accept;
  }

  /** Every field lies in the payload and on bytes no earlier field has claimed. */
  ghost predicate Accepted(s: SchemaDecl)
  {
    forall k :: 0 <= k < |s.fields| ==> Fits(s, k) && Unowned(s, k)
  }

  /** Every end overflows 64 bits and wraps to the size or below. */
  predicate AllWrap(s: SchemaDecl)
  {
    forall i :: 0 <= i < |s.fields| ==>
      && FieldByteSize(s.fields[i]).Some?
      && TWO63 <= End(s.fields[i]) && End(s.fields[i]) - TWO64 <= s.size
  }

  /** Field k is the first the owner array cannot take, and its end is past the array. */
  ghost predicate PanicsAt(s: SchemaDecl, k: nat)
    requires k < |s.fields|
  {
    && (forall j :: 0 <= j < k ==> Fits(s, j) && Unowned(s, j))
    && !Fits(s, k) && UnownedInside(s, k)
  }

  ghost predicate Panics(s: SchemaDecl)
  {
    && s.size > 0 && (forall i :: 0 <= i < |s.fields| ==> BoundsPass(s, i))
    && exists k :: 0 <= k < |s.fields| && PanicsAt(s, k)
  }

  /**
   The validation part of Emit, exactly. For a positive size it accepts a schema when every field lies in
   the payload on unclaimed bytes, which is to say, when all names but the last are non-empty, exactly the
   well-laid-out ones. For other sizes the owner array is skipped and it accepts when every end wraps.
   */
  method EmitCheck(s: SchemaDecl) returns (v: Verdict)
    ensures s.size > 0 ==> (v == Accept <==> Accepted(s))
    ensures s.size > 0 && NamedButLast(NamesOf(s)) ==> (v == Accept <==> WellLaid(s))
    ensures s.size <= 0 ==> (v == Accept <==> AllWrap(s))
    ensures v == IndexPanic <==> Panics(s)
  {
    hide Covers, FieldByteSize, OwnerOf, Unowned, UnownedInside, Fits, WellLaid, NamedButLast, BoundsPass, AllWrap;
    if NamedButLast(NamesOf(s)) {
      AcceptedIffWellLaid(s);
    }
    v := CheckBounds(s);
    AcceptedPassBounds(s);
    if v != Accept {
      return;
    }
    if s.size > 0 {
      var owner := new string[s.size](_ => "");
      if !s.element {
        owner[0] := "<kind>";
      }
      NothingMarked(s, owner[..]);
      var k := 0;
      while k < |s.fields|
        invariant 0 <= k <= |s.fields| && fresh(owner) && v == Accept
        invariant Marks(owner[..], s, k)
        invariant forall j :: 0 <= j < k ==> Fits(s, j) && Unowned(s, j)
      {
        PassedIsKnown(s, k);
        UnownedFits(s, k);
        v := MarkField(s, owner, k);
        if v != Accept {
          FirstRefused(s, k);
          return;
        }
        k := k + 1;
      }
    }
  }

  lemma {:induction false} PassedIsKnown(s: SchemaDecl, k: nat)
    requires k < |s.fields| && BoundsPass(s, k)
    ensures FieldByteSize(s.fields[k]).Some?
  {
  }

  /** For a field inside the payload, no owner inside means no owner. */
  lemma {:induction false} UnownedFits(s: SchemaDecl, k: nat)
    requires k < |s.fields|
    ensures Fits(s, k) ==> (Unowned(s, k) <==> UnownedInside(s, k))
    ensures Unowned(s, k) ==> UnownedInside(s, k)
  {
    hide FieldByteSize;
  }

  /** A panic, if there is one, is at the first refused field. */
  lemma {:induction false} FirstRefused(s: SchemaDecl, k: nat)
    requires k < |s.fields| && (forall j :: 0 <= j < k ==> Fits(s, j) && Unowned(s, j))
    requires !(Fits(s, k) && UnownedInside(s, k))
    ensures (exists i :: 0 <= i < |s.fields| && PanicsAt(s, i)) <==> !Fits(s, k) && UnownedInside(s, k)
  {
    hide Fits, Unowned, UnownedInside;
    UnownedFits(s, k);
    assert !(Fits(s, k) && Unowned(s, k));
    if !Fits(s, k) && UnownedInside(s, k) {
      assert PanicsAt(s, k);
    }
    forall i | 0 <= i < |s.fields| && PanicsAt(s, i)
      ensures i == k
    {
      UnownedFits(s, i);
    }
  }

  lemma {:induction false} EndWraps(f: Field)
    requires FieldByteSize(f).Some?
    ensures 0 < End(f) && Wrap64(End(f)) == (if End(f) < TWO63 then End(f) else End(f) - TWO64)
  {
    hide FieldByteSize;
    if End(f) < TWO63 {
      Wrap64Exact(End(f));
    } else {
      WrapShift(End(f), 1);
      Wrap64Exact(End(f) - TWO64);
    }
  }

  /** A field inside a payload passes the bounds; with no payload, passing means wrapping. */
  lemma {:induction false} AcceptedPassBounds(s: SchemaDecl)
    ensures forall i :: 0 <= i < |s.fields| && Fits(s, i) ==> BoundsPass(s, i)
    ensures s.size <= 0 ==> (AllWrap(s) <==> forall i :: 0 <= i < |s.fields| ==> BoundsPass(s, i))
  {
    hide FieldByteSize, Wrap64;
    forall i | 0 <= i < |s.fields| && FieldByteSize(s.fields[i]).Some?
      ensures Fits(s, i) ==> BoundsPass(s, i)
      ensures s.size <= 0 ==>
        (BoundsPass(s, i) <==> TWO63 <= End(s.fields[i]) && End(s.fields[i]) - TWO64 <= s.size)
    {
      EndWraps(s.fields[i]);
    }
    if s.size <= 0 && (forall i :: 0 <= i < |s.fields| ==> BoundsPass(s, i)) {
      forall i | 0 <= i < |s.fields| ensures FieldByteSize(s.fields[i]).Some? { assert BoundsPass(s, i); }
    }
  }

  lemma {:induction false} NothingMarked(s: SchemaDecl, owner: seq<string>)
    requires |owner| == s.size
    requires forall p :: 0 <= p < s.size ==> owner[p] == if p == 0 && !s.element then "<kind>" else ""
    ensures Marks(owner, s, 0)
  {
  }

  // ---- what acceptance means ----

  lemma {:induction false} OwnedWhenNamed(s: SchemaDecl, k: nat, p: int)
    requires k <= |s.fields| && forall i :: 0 <= i < k ==> s.fields[i].name != ""
    ensures OwnerOf(s, k, p) != "" <==>
            ((!s.element && p == 0) || exists i :: 0 <= i < k && Covers(s.fields[i], p))
  {
    if k > 0 {
      OwnedWhenNamed(s, k - 1, p);
    }
  }

  /** With all names but the last non-empty, the owner array accepts exactly the well-laid-out schemas. */
  lemma {:induction false} AcceptedIffWellLaid(s: SchemaDecl)
    requires NamedButLast(NamesOf(s))
    ensures Accepted(s) <==> WellLaid(s)
  {
    forall i | 0 <= i < |s.fields| - 1 ensures s.fields[i].name != "" { assert NamesOf(s)[i] != ""; }
    forall k, p | 0 <= k < |s.fields|
      ensures OwnerOf(s, k, p) != "" <==>
              ((!s.element && p == 0) || exists i :: 0 <= i < k && Covers(s.fields[i], p))
    {
      OwnedWhenNamed(s, k, p);
    }
    if WellLaid(s) {
      forall k | 0 <= k < |s.fields|
        ensures Fits(s, k) && Unowned(s, k)
      {
        assert FieldByteSize(s.fields[k]).Some?;
      }
    }
    if Accepted(s) {
      forall i, j, p | 0 <= i < j < |s.fields| && Covers(s.fields[i], p)
        ensures !Covers(s.fields[j], p)
      {
        assert Unowned(s, j);
      }
      forall i | 0 <= i < |s.fields|
        ensures FieldByteSize(s.fields[i]).Some? && s.fields[i].offset + FieldByteSize(s.fields[i]).value <= s.size
        ensures s.element || !Covers(s.fields[i], 0)
      {
        assert Fits(s, i) && Unowned(s, i);
      }
    }
  }

  /** One byte per field, in order, but for field i + 1, which is put on field i. */
  function Stacked(names: seq<string>, i: nat): SchemaDecl
    requires |names| < TWO32
  {
    SchemaDecl(|names| + 1, false,
               seq(|names|, j requires 0 <= j < |names| =>
                     Field(names[j], "uint8", if j == i + 1 then j else j + 1, None, None)))
  }

  /** An unnamed field that is not the last lets the next one be stacked on it. */
  lemma {:induction false} UnnamedOverlapAccepted(names: seq<string>, i: nat)
    requires |names| < TWO32 && i < |names| - 1 && names[i] == ""
    ensures Accepted(Stacked(names, i)) && !WellLaid(Stacked(names, i)) && NamesOf(Stacked(names, i)) == names
  {
    var s := Stacked(names, i);
    forall j | 0 <= j < |s.fields| ensures FieldByteSize(s.fields[j]) == Some(1) { Uint8Width(s.fields[j]); }
    hide FieldByteSize;
    forall k | 0 <= k < |s.fields|
      ensures Fits(s, k) && Unowned(s, k)
    {
      forall p | Covers(s.fields[k], p)
        ensures OwnerOf(s, k, p) == ""
      {
        StackedOwner(names, i, k, p);
      }
    }
    assert Covers(s.fields[i], i + 1) && Covers(s.fields[i + 1], i + 1);
    assert NamesOf(s) == names;
  }

  lemma {:induction false} Uint8Width(f: Field)
    requires f.typ == "uint8" && f.elem.None? && f.nested.None?
    ensures FieldByteSize(f) == Some(1)
  {
  }

  /** On a stacked layout, the byte of field k has no mark before it is marked. */
  lemma {:induction false} StackedOwner(names: seq<string>, i: nat, k: nat, p: int)
    requires |names| < TWO32 && i < |names| - 1 && names[i] == "" && k <= |names|
    requires p >= 1 && (p > k || (p == i + 1 && k == i + 1))
    ensures OwnerOf(Stacked(names, i), k, p) == ""
    decreases k
  {
    var s := Stacked(names, i);
    if k > 0 {
      Uint8Width(s.fields[k - 1]);
      hide FieldByteSize;
      if k == i + 1 && p == i + 1 {
        assert Covers(s.fields[i], p);
      } else {
        StackedOwner(names, i, k - 1, p);
      }
    }
  }

  /**
   The exact condition on names: the owner array judges every layout with these names correctly if and
   only if every name but the last is non-empty.
   */
  lemma {:induction false} NamesExact(names: seq<string>)
    requires |names| < TWO32
    ensures NamedButLast(names) <==>
      forall s: SchemaDecl :: NamesOf(s) == names && s.size > 0 ==> (Accepted(s) <==> WellLaid(s))
  {
    hide Accepted, WellLaid;
    if NamedButLast(names) {
      forall s: SchemaDecl | NamesOf(s) == names && s.size > 0
        ensures Accepted(s) <==> WellLaid(s)
      {
        AcceptedIffWellLaid(s);
      }
    } else {
      var i :| 0 <= i < |names| - 1 && names[i] == "";
      UnnamedOverlapAccepted(names, i);
      assert Stacked(names, i).size > 0;
    }
  }

  /** Without a payload only the empty schema is well laid out. */
  lemma {:induction false} NoPayloadNoFields(s: SchemaDecl)
    requires s.size <= 0
    ensures WellLaid(s) <==> s.fields == []
  {
    hide Covers;
    if s.fields != [] && FieldByteSize(s.fields[0]).Some? {
      assert End(s.fields[0]) > s.size;
    }
  }

  /** A schema without a payload whose one field ends at 2^63: accepted, and not well laid out. */
  lemma {:induction false} EmptyPayloadAccepted()
    ensures var s := SchemaDecl(0, true, [Field("A", "bytes9223372036854775807", 1, None, None)]);
            AllWrap(s) && !WellLaid(s)
  {
    var t := "bytes9223372036854775807";
    var s := SchemaDecl(0, true, [Field("A", t, 1, None, None)]);
    assert t[..5] == BYTES;
    assert t[5..] == "9223372036854775807";
    MaxWidth();
    Wrap64Exact(0x7FFF_FFFF_FFFF_FFFF);
    assert BytesWidth(t) == Some(0x7FFF_FFFF_FFFF_FFFF);
    NoPayloadNoFields(s);
  }

  lemma {:induction false} NextDigit(d: string, k: nat, n: int)
    requires k < |d| && Decimal(d[..k]) == n
    ensures Decimal(d[..k + 1]) == 10 * n + DigitValue(d[k])
  {
    assert d[..k + 1][..k] == d[..k];
  }

  lemma {:induction false} NoDigits()
    ensures Decimal("") == 0
  {
  }

  lemma {:induction false} MaxWidth()
    ensures Decimal("9223372036854775807") == 0x7FFF_FFFF_FFFF_FFFF
  {
    hide Decimal;
    var d := "9223372036854775807";
    assert d[..0] == "";
    NoDigits();
    NextDigit(d, 0, 0);
    NextDigit(d, 1, 9);
    NextDigit(d, 2, 92);
    NextDigit(d, 3, 922);
    NextDigit(d, 4, 9223);
    NextDigit(d, 5, 92233);
    NextDigit(d, 6, 922337);
    NextDigit(d, 7, 9223372);
    NextDigit(d, 8, 92233720);
    NextDigit(d, 9, 922337203);
    NextDigit(d, 10, 9223372036);
    NextDigit(d, 11, 92233720368);
    NextDigit(d, 12, 922337203685);
    NextDigit(d, 13, 9223372036854);
    NextDigit(d, 14, 92233720368547);
    NextDigit(d, 15, 922337203685477);
    NextDigit(d, 16, 9223372036854775);
    NextDigit(d, 17, 92233720368547758);
    NextDigit(d, 18, 922337203685477580);
    assert d[..19] == d;
  }

  // ---- fields and schemas of the emitted code ----

  /** Scalars, bytes<N>, string and bytes. */
  predicate Plain(f: Field)
  {
    f.elem.None? && f.nested.None? && FieldByteSize(f).Some?
  }

  function PlainDef(f: Field): FieldDef
    requires Plain(f)
  {
    if BytesWidth(f.typ).None? && IsVariable(f.typ) then Tail(f.offset)
    else Inline(f.offset, FieldByteSize(f).value)
  }

  function AsSchema(e: ElemDecl): SchemaDecl
  {
    SchemaDecl(e.size, true, e.fields)
  }

  /**
   Element and nested schemas that are accepted themselves and whose emitted writes compile: there is a
   typed write for a scalar, and one for a string or bytes, but none for bytes<N>, a list or an object.
   */
  ghost predicate ElemOk(e: ElemDecl)
  {
    && e.size >= 1 && NamedButLast(NamesOf(AsSchema(e))) && Accepted(AsSchema(e))
    && forall k :: 0 <= k < |e.fields| ==> Plain(e.fields[k]) && BytesWidth(e.fields[k].typ).None?
  }

  ghost predicate Emittable(f: Field)
  {
    if f.elem.Some? then ElemOk(f.elem.value)
    else if f.nested.Some? then ElemOk(f.nested.value)
    else Plain(f)
  }

  ghost predicate AllEmittable(s: SchemaDecl)
  {
    forall i :: 0 <= i < |s.fields| ==> Emittable(s.fields[i])
  }

  /** An element with a tail of its own goes out of line. */
  predicate Tailed(e: ElemDecl)
  {
    exists k :: 0 <= k < |e.fields| && IsVariable(e.fields[k].typ)
  }

  ghost function ToSub(e: ElemDecl): (sub: Schema)
    requires ElemOk(e)
    ensures sub.size == e.size && |sub.fields| == |e.fields|
  {
    Schema(e.size, seq(|e.fields|, k requires 0 <= k < |e.fields| => PlainDef(e.fields[k])))
  }

  ghost function ToFieldDef(f: Field): FieldDef
    requires Emittable(f)
  {
    if f.elem.Some? then
      if Tailed(f.elem.value) then Children(f.offset, ToSub(f.elem.value)) else Elems(f.offset, ToSub(f.elem.value))
    else if f.nested.Some? then Child(f.offset, ToSub(f.nested.value))
    else PlainDef(f)
  }

  ghost function ToSchema(s: SchemaDecl): (t: Schema)
    requires s.size >= 0 && AllEmittable(s)
    ensures t.size == s.size && |t.fields| == |s.fields|
  {
    Schema(s.size, seq(|s.fields|, i requires 0 <= i < |s.fields| => ToFieldDef(s.fields[i])))
  }

  // ---- an accepted schema is a well-formed one ----

  lemma {:induction false} SlotIsSize(f: Field)
    requires Emittable(f)
    ensures FieldByteSize(f) == Some(SlotWidth(ToFieldDef(f))) && ToFieldDef(f).off == f.offset
  {
    hide ElemOk, BytesWidth;
  }

  /** Fields that share no byte have disjoint slots. */
  lemma {:induction false} ApartIsDisjoint(f: Field, g: Field, a: FieldDef, b: FieldDef)
    requires FieldByteSize(f) == Some(SlotWidth(a)) && a.off == f.offset
    requires FieldByteSize(g) == Some(SlotWidth(b)) && b.off == g.offset
    requires forall p :: Covers(f, p) ==> !Covers(g, p)
    ensures Disjoint(a, b)
  {
    hide FieldByteSize;
    var p := if f.offset <= g.offset then g.offset else f.offset;
    assert Covers(f, p) ==> !Covers(g, p);
  }

  lemma {:induction false} SubIsWellFormed(e: ElemDecl)
    requires ElemOk(e)
    ensures WellFormed(ToSub(e)) && e.size >= 1
  {
    hide Accepted, BytesWidth, Covers, FieldByteSize;
    var s := AsSchema(e);
    AcceptedIffWellLaid(s);
    var t := ToSub(e);
    forall k | 0 <= k < |e.fields| ensures FieldByteSize(e.fields[k]) == Some(SlotWidth(t.fields[k]))
      ensures t.fields[k].off == e.fields[k].offset && SubWellFormed(t.fields[k])
    {
      PlainSlot(e.fields[k]);
    }
    forall i, j | 0 <= i < j < |t.fields| ensures Disjoint(t.fields[i], t.fields[j])
    {
      ApartIsDisjoint(e.fields[i], e.fields[j], t.fields[i], t.fields[j]);
    }
  }

  lemma {:induction false} PlainSlot(f: Field)
    requires Plain(f)
    ensures FieldByteSize(f) == Some(SlotWidth(PlainDef(f))) && PlainDef(f).off == f.offset
    ensures SubWellFormed(PlainDef(f))
  {
    hide BytesWidth;
  }

  lemma {:induction false} AcceptedIsWellFormed(s: SchemaDecl)
    requires WellLaid(s) && s.size >= 1 && AllEmittable(s)
    ensures WellFormed(ToSchema(s))
    ensures !s.element ==> TopLevel(ToSchema(s))
  {
    hide Covers, FieldByteSize, Emittable, ToFieldDef;
    var t := ToSchema(s);
    forall i | 0 <= i < |s.fields| ensures FieldByteSize(s.fields[i]) == Some(SlotWidth(t.fields[i]))
      ensures t.fields[i].off == s.fields[i].offset && SubWellFormed(t.fields[i])
      ensures !s.element ==> t.fields[i].off >= 1
    {
      SlotIsSize(s.fields[i]);
      DefIsWellFormed(s.fields[i]);
      OffKind(s, i);
    }
    forall i, j | 0 <= i < j < |t.fields| ensures Disjoint(t.fields[i], t.fields[j])
    {
      ApartIsDisjoint(s.fields[i], s.fields[j], t.fields[i], t.fields[j]);
    }
  }

  lemma {:induction false} OffKind(s: SchemaDecl, i: nat)
    requires WellLaid(s) && i < |s.fields|
    ensures !s.element ==> s.fields[i].offset >= 1
  {
    hide BytesWidth;
    assert !s.element ==> !Covers(s.fields[i], 0);
  }

  lemma {:induction false} DefIsWellFormed(f: Field)
    requires Emittable(f)
    ensures SubWellFormed(ToFieldDef(f))
  {
    hide ElemOk, BytesWidth, WellFormed;
    if f.elem.Some? {
      SubIsWellFormed(f.elem.value);
    } else if f.nested.Some? {
      SubIsWellFormed(f.nested.value);
    }
  }

  // ---- the emitted constructor ----

  /** What the constructor takes for a field: its bytes, the elements of a list, or an object or nil. */
  datatype Arg = Raw(bytes: Bytes) | Items(items: seq<seq<Bytes>>) | Item(item: Option<seq<Bytes>>)

  /** The bytes of a plain field, of its width if that is fixed. */
  predicate BytesOk(f: Field, b: Bytes)
    requires Plain(f)
  {
    PlainDef(f).Inline? ==> |b| == FieldByteSize(f).value
  }

  ghost predicate ItemOk(e: ElemDecl, item: seq<Bytes>)
    requires ElemOk(e)
  {
    |item| == |e.fields| && forall k :: 0 <= k < |item| ==> BytesOk(e.fields[k], item[k])
  }

  ghost predicate AllItemsOk(e: ElemDecl, items: seq<seq<Bytes>>)
    requires ElemOk(e)
  {
    forall k :: 0 <= k < |items| ==> ItemOk(e, items[k])
  }

  ghost predicate ArgOk(f: Field, a: Arg)
    requires Emittable(f)
  {
    if f.elem.Some? then a.Items? && AllItemsOk(f.elem.value, a.items)
    else if f.nested.Some? then a.Item? && (a.item.Some? ==> ItemOk(f.nested.value, a.item.value))
    else a.Raw? && BytesOk(f, a.bytes)
  }

  ghost predicate ArgsOk(s: SchemaDecl, args: seq<Arg>)
    requires AllEmittable(s)
  {
    |args| == |s.fields| && forall i :: 0 <= i < |args| ==> ArgOk(s.fields[i], args[i])
  }

  function PlainWrite(f: Field, i: nat, b: Bytes): Write
    requires Plain(f)
  {
    if PlainDef(f).Tail? then WTail(i, b) else WInline(i, b)
  }

  function PlainValue(f: Field, b: Bytes): Value
    requires Plain(f)
  {
    if PlainDef(f).Tail? then TailV(b) else InlineV(b)
  }

  /** One write per field of the element, in declared order. */
  ghost function ItemProg(e: ElemDecl, item: seq<Bytes>): (p: seq<Write>)
    requires ElemOk(e) && ItemOk(e, item)
    ensures |p| == |e.fields|
  {
    seq(|item|, k requires 0 <= k < |item| => PlainWrite(e.fields[k], k, item[k]))
  }

  ghost function ItemProgs(e: ElemDecl, items: seq<seq<Bytes>>): (ps: seq<seq<Write>>)
    requires ElemOk(e) && AllItemsOk(e, items)
    ensures |ps| == |items| && forall k :: 0 <= k < |items| ==> ps[k] == ItemProg(e, items[k])
  {
    seq(|items|, k requires 0 <= k < |items| => ItemProg(e, items[k]))
  }

  /** A nil object is not written. */
  ghost function WritesOf(f: Field, i: nat, a: Arg): (r: seq<Write>)
    requires Emittable(f) && ArgOk(f, a)
    ensures |r| <= 1
  {
    if f.elem.Some? then
      var ps := ItemProgs(f.elem.value, a.items);
      [if Tailed(f.elem.value) then WChildren(i, ps) else WElems(i, ps)]
    else if f.nested.Some? then
      if a.item.None? then [] else [WChild(i, ItemProg(f.nested.value, a.item.value))]
    else [PlainWrite(f, i, a.bytes)]
  }

  datatype Group = Scalars | Accessors | Lists | Objects

  function GroupOf(f: Field): Group
  {
    if f.elem.Some? then Lists
    else if f.nested.Some? then Objects
    else if BytesWidth(f.typ).Some? || IsVariable(f.typ) then Accessors
    else Scalars
  }

  /** The fields of a group, in declared order. */
  function Indices(s: SchemaDecl, k: nat, g: Group): (r: seq<nat>)
    requires k <= |s.fields|
    ensures forall i :: i in r <==> 0 <= i < k && GroupOf(s.fields[i]) == g
    ensures InRange(r, k)
  {
    if k == 0 then []
    else Indices(s, k - 1, g) + if GroupOf(s.fields[k - 1]) == g then [k - 1] else []
  }

  predicate InRange(order: seq<nat>, n: nat)
  {
    forall k :: 0 <= k < |order| ==> order[k] < n
  }

  /** Scalars first, then byte arrays and tails, then lists, then nested objects. */
  function Order(s: SchemaDecl): (r: seq<nat>)
    ensures InRange(r, |s.fields|) && forall i :: 0 <= i < |s.fields| ==> i in r
  {
    var n := |s.fields|;
    var r := Indices(s, n, Scalars) + Indices(s, n, Accessors) + Indices(s, n, Lists) + Indices(s, n, Objects);
    assert forall i :: 0 <= i < n ==> GroupOf(s.fields[i]) in {Scalars, Accessors, Lists, Objects};
    r
  }

  ghost function Writes(s: SchemaDecl, args: seq<Arg>, order: seq<nat>): (r: seq<Write>)
    requires AllEmittable(s) && ArgsOk(s, args) && InRange(order, |s.fields|)
    decreases |order|
  {
    if order == [] then []
    else
      var n := |order| - 1;
      Writes(s, args, order[..n]) + WritesOf(s.fields[order[n]], order[n], args[order[n]])
  }

  ghost function Constructor(s: SchemaDecl, args: seq<Arg>): seq<Write>
    requires AllEmittable(s) && ArgsOk(s, args)
  {
    Writes(s, args, Order(s))
  }

  // ---- the writes are typed ----

  lemma {:induction false} ItemTyped(e: ElemDecl, item: seq<Bytes>)
    requires ElemOk(e) && ItemOk(e, item)
    ensures Typed(ToSub(e), ItemProg(e, item))
  {
    hide ElemOk, BytesWidth;
    var (t, p) := (ToSub(e), ItemProg(e, item));
    forall k | 0 <= k < |p| ensures TypedWrite(t, p[k])
    {
      PlainTyped(e.fields[k], t, k, item[k]) by { ElemFieldPlain(e, k); }
    }
  }

  lemma {:induction false} ElemFieldPlain(e: ElemDecl, k: nat)
    requires ElemOk(e) && k < |e.fields|
    ensures Plain(e.fields[k]) && BytesWidth(e.fields[k].typ).None?
    ensures ToSub(e).fields[k] == PlainDef(e.fields[k])
  {
  }

  lemma {:induction false} PlainTyped(f: Field, t: Schema, i: nat, b: Bytes)
    requires Plain(f) && BytesOk(f, b) && i < |t.fields| && t.fields[i] == PlainDef(f)
    ensures TypedWrite(t, PlainWrite(f, i, b))
  {
    hide BytesWidth;
  }

  lemma {:induction false} WriteTyped(f: Field, t: Schema, i: nat, a: Arg)
    requires Emittable(f) && ArgOk(f, a) && i < |t.fields| && t.fields[i] == ToFieldDef(f)
    ensures forall k :: 0 <= k < |WritesOf(f, i, a)| ==> TypedWrite(t, WritesOf(f, i, a)[k])
  {
    hide ElemOk, ItemOk, ItemProg, BytesWidth;
    if f.elem.Some? {
      var e := f.elem.value;
      forall k | 0 <= k < |a.items| ensures Typed(ToSub(e), ItemProg(e, a.items[k])) { ItemTyped(e, a.items[k]); }
    } else if f.nested.Some? {
      if a.item.Some? {
        ItemTyped(f.nested.value, a.item.value);
      }
    } else {
      PlainTyped(f, t, i, a.bytes);
    }
  }

  lemma {:induction false} WritesTyped(s: SchemaDecl, args: seq<Arg>, order: seq<nat>)
    requires s.size >= 0 && AllEmittable(s) && ArgsOk(s, args) && InRange(order, |s.fields|)
    ensures Typed(ToSchema(s), Writes(s, args, order))
    decreases |order|
  {
    hide Emittable, ArgOk, WritesOf, ToFieldDef;
    if order != [] {
      var n := |order| - 1;
      WritesTyped(s, args, order[..n]);
      WriteTyped(s.fields[order[n]], ToSchema(s), order[n], args[order[n]]);
    }
  }

  // ---- and mean the arguments ----

  ghost function ItemRecord(e: ElemDecl, item: seq<Bytes>): (r: Record)
    requires ElemOk(e) && ItemOk(e, item)
    ensures |r.vals| == |e.fields|
  {
    Record(seq(|item|, k requires 0 <= k < |item| => PlainValue(e.fields[k], item[k])))
  }

  ghost function ItemRecords(e: ElemDecl, items: seq<seq<Bytes>>): (rs: seq<Record>)
    requires ElemOk(e) && AllItemsOk(e, items)
    ensures |rs| == |items| && forall k :: 0 <= k < |items| ==> rs[k] == ItemRecord(e, items[k])
  {
    seq(|items|, k requires 0 <= k < |items| => ItemRecord(e, items[k]))
  }

  lemma {:induction false} ItemMeans(e: ElemDecl, item: seq<Bytes>)
    requires ElemOk(e) && ItemOk(e, item)
    ensures WellFormed(ToSub(e)) && Typed(ToSub(e), ItemProg(e, item))
    ensures Meaning(ToSub(e), ItemProg(e, item)) == ItemRecord(e, item)
  {
    hide ElemOk, ItemOk, ItemProg, Meaning, WellFormed, PlainValue;
    SubIsWellFormed(e);
    ItemTyped(e, item);
    var p := ItemProg(e, item);
    ItemMeansSoFar(e, item, |p|);
    assert p[..|p|] == p;
    assert Meaning(ToSub(e), p).vals == ItemRecord(e, item).vals;
  }

  lemma {:induction false} ItemMeansSoFar(e: ElemDecl, item: seq<Bytes>, n: nat)
    requires ElemOk(e) && ItemOk(e, item) && n <= |e.fields|
    requires WellFormed(ToSub(e)) && Typed(ToSub(e), ItemProg(e, item))
    ensures Typed(ToSub(e), ItemProg(e, item)[..n])
    ensures forall k :: 0 <= k < n ==> Meaning(ToSub(e), ItemProg(e, item)[..n]).vals[k] == ItemRecord(e, item).vals[k]
    decreases n
  {
    hide ElemOk, WellFormed, BytesWidth;
    var (t, p) := (ToSub(e), ItemProg(e, item));
    if n > 0 {
      ItemMeansSoFar(e, item, n - 1);
      assert p[..n][..n - 1] == p[..n - 1] && p[..n][n - 1] == p[n - 1];
      ElemFieldPlain(e, n - 1);
      PlainMeans(t, e.fields[n - 1], n - 1, item[n - 1]);
    }
  }

  lemma {:induction false} PlainMeans(t: Schema, f: Field, i: nat, b: Bytes)
    requires Plain(f) && BytesOk(f, b) && i < |t.fields| && t.fields[i] == PlainDef(f) && WellFormed(t)
    ensures TypedWrite(t, PlainWrite(f, i, b)) && ValueOf(t, PlainWrite(f, i, b)) == PlainValue(f, b)
    ensures PlainWrite(f, i, b).i == i
  {
    hide BytesWidth, WellFormed;
  }

  // ---- inline lists of scalars ----

  lemma {:induction false} ItemsTyped(e: ElemDecl, items: seq<seq<Bytes>>)
    requires ElemOk(e) && AllItemsOk(e, items)
    ensures WellFormed(ToSub(e))
    ensures forall k :: 0 <= k < |items| ==> Typed(ToSub(e), ItemProgs(e, items)[k])
  {
    hide ElemOk, ItemOk, ItemProg, WellFormed;
    SubIsWellFormed(e);
    forall k | 0 <= k < |items| ensures Typed(ToSub(e), ItemProgs(e, items)[k]) { ItemTyped(e, items[k]); }
  }

  /** The emitter does not look at this: more than one inline element needs a size that eight divides. */
  predicate Divides(e: ElemDecl, n: nat)
  {
    n <= 1 || e.size % 8 == 0
  }

  lemma {:induction false} ScalarsAreQuiet(e: ElemDecl, item: seq<Bytes>)
    requires ElemOk(e) && ItemOk(e, item) && !Tailed(e)
    ensures QuietProg(ItemProg(e, item))
  {
    hide ElemOk, BytesWidth;
    forall k | 0 <= k < |item| ensures Quiet(ItemProg(e, item)[k])
    {
      ElemFieldPlain(e, k);
      assert !IsVariable(e.fields[k].typ);
    }
  }

  lemma {:induction false} DividesIsInStride(e: ElemDecl, items: seq<seq<Bytes>>)
    requires ElemOk(e) && AllItemsOk(e, items) && !Tailed(e)
    ensures InStride(ToSub(e), ItemProgs(e, items)) <==> Divides(e, |items|)
  {
    hide ElemOk, ItemOk, Tailed, ItemProg, QuietProg;
    forall k | 0 <= k < |items| ensures QuietProg(ItemProgs(e, items)[k]) { ScalarsAreQuiet(e, items[k]); }
  }

  /** What a reader finds of the elements of an emitted inline list. */
  ghost function ListSlots(e: ElemDecl, items: seq<seq<Bytes>>): seq<Bytes>
    requires ElemOk(e) && AllItemsOk(e, items)
  {
    ItemsTyped(e, items);
    FoundSlots(ToSub(e), ItemProgs(e, items))
  }

  /** The slot an element leaves, on its own. */
  ghost function ItemSlot(e: ElemDecl, item: seq<Bytes>): (r: Bytes)
    requires ElemOk(e) && ItemOk(e, item)
    ensures |r| == e.size
  {
    SubIsWellFormed(e);
    ItemTyped(e, item);
    Image(ToSub(e), ItemProg(e, item))[..e.size]
  }

  /**
   Exactly when an emitted inline list reads back, element by element: there is at most one, or eight
   divides their size, or all but the first are zero.
   */
  lemma {:induction false} EmittedListExact(e: ElemDecl, items: seq<seq<Bytes>>)
    requires ElemOk(e) && AllItemsOk(e, items) && !Tailed(e)
    ensures |ListSlots(e, items)| == |items|
    ensures (forall k :: 0 <= k < |items| ==> ListSlots(e, items)[k] == ItemSlot(e, items[k])) <==>
              Divides(e, |items|) || forall k :: 1 <= k < |items| ==> AllZero(ItemSlot(e, items[k]))
  {
    hide ElemOk, ItemOk, Tailed, ItemProg, WellFormed, Typed, Image, FoundSlots, QuietProg, AllZero;
    SubIsWellFormed(e);
    ItemsTyped(e, items);
    var (sub, ps) := (ToSub(e), ItemProgs(e, items));
    forall k | 0 <= k < |ps| ensures QuietProg(ps[k]) && Slots(sub, ps)[k] == ItemSlot(e, items[k])
    {
      ScalarsAreQuiet(e, items[k]);
    }
    QuietListExact(sub, ps);
    assert ListSlots(e, items) == Slots(sub, ps) <==>
           forall k :: 0 <= k < |items| ==> ListSlots(e, items)[k] == Slots(sub, ps)[k];
  }

  // ---- what each field is to hold ----

  /** Of an inline list, the records only if its elements stand where the reader looks. */
  ghost function ArgValue(f: Field, a: Arg): Value
    requires Emittable(f) && ArgOk(f, a)
  {
    if f.elem.Some? then
      if Tailed(f.elem.value) then ChildrenV(ItemRecords(f.elem.value, a.items))
      else ListValue(f.elem.value, a.items)
    else if f.nested.Some? then
      ChildV(if a.item.None? then None else Some(ItemRecord(f.nested.value, a.item.value)))
    else PlainValue(f, a.bytes)
  }

  ghost function ListValue(e: ElemDecl, items: seq<seq<Bytes>>): Value
    requires ElemOk(e) && AllItemsOk(e, items)
  {
    var known := Divides(e, |items|);
    ElemsV(ListSlots(e, items), known, if known then ItemRecords(e, items) else [])
  }

  lemma {:induction false} ItemsMean(e: ElemDecl, items: seq<seq<Bytes>>)
    requires ElemOk(e) && AllItemsOk(e, items)
    requires WellFormed(ToSub(e)) && forall k :: 0 <= k < |items| ==> Typed(ToSub(e), ItemProgs(e, items)[k])
    ensures Meanings(ToSub(e), ItemProgs(e, items)) == ItemRecords(e, items)
  {
    hide ElemOk, ItemOk, ItemProg, ItemRecord, WellFormed, Typed, Meaning;
    forall k | 0 <= k < |items|
      ensures Meaning(ToSub(e), ItemProgs(e, items)[k]) == ItemRecord(e, items[k])
    {
      ItemMeans(e, items[k]);
    }
  }

  /** The write of a field means its argument, and a nil object needs none. */
  lemma {:induction false} ArgMeans(t: Schema, f: Field, i: nat, a: Arg)
    requires Emittable(f) && ArgOk(f, a) && WellFormed(t) && i < |t.fields| && t.fields[i] == ToFieldDef(f)
    ensures forall w :: w in WritesOf(f, i, a) ==> w.i == i && TypedWrite(t, w) && ValueOf(t, w) == ArgValue(f, a)
    ensures WritesOf(f, i, a) == [] ==> DefaultValue(t.fields[i]) == ArgValue(f, a)
  {
    hide ElemOk, ItemOk, ItemProg, ItemRecord, BytesWidth, WellFormed, Tailed, Divides, InStride, Meaning, FoundSlots;
    WriteTyped(f, t, i, a);
    if f.elem.Some? {
      var e := f.elem.value;
      ItemsTyped(e, a.items);
      ItemsMean(e, a.items);
      if !Tailed(e) {
        DividesIsInStride(e, a.items);
      }
    } else if f.nested.Some? {
      if a.item.Some? {
        ItemMeans(f.nested.value, a.item.value);
      }
    } else {
      PlainMeans(t, f, i, a.bytes);
    }
  }

  /** One more write, or none. */
  lemma {:induction false} MeaningNext(t: Schema, prog: seq<Write>, ws: seq<Write>, i: nat)
    requires WellFormed(t) && Typed(t, prog) && Typed(t, prog + ws) && |ws| <= 1 && i < |t.fields|
    requires forall w :: w in ws ==> TypedWrite(t, w)
    ensures Meaning(t, prog + ws).vals[i] ==
              if ws != [] && ws[0].i == i then ValueOf(t, ws[0]) else Meaning(t, prog).vals[i]
  {
    hide ValueOf, WellFormed;
    if ws == [] {
      assert prog + ws == prog;
    } else {
      assert (prog + ws)[..|prog|] == prog && (prog + ws)[|prog|] == ws[0];
    }
  }

  /** A field that was written holds its own argument, whatever else was written. */
  lemma {:induction false} WrittenHolds(s: SchemaDecl, args: seq<Arg>, order: seq<nat>, i: nat)
    requires s.size >= 0 && AllEmittable(s) && ArgsOk(s, args) && InRange(order, |s.fields|) && i < |s.fields|
    requires WellFormed(ToSchema(s)) && Typed(ToSchema(s), Writes(s, args, order))
    ensures Meaning(ToSchema(s), Writes(s, args, order)).vals[i] ==
              if i in order then ArgValue(s.fields[i], args[i]) else DefaultValue(ToSchema(s).fields[i])
    decreases |order|
  {
    hide Emittable, ArgOk, WritesOf, ToFieldDef, ArgValue, ValueOf, WellFormed, Typed, Meaning;
    if order == [] {
      NothingWritten(ToSchema(s), i);
    } else {
      var (t, n) := (ToSchema(s), |order| - 1);
      var (init, j) := (order[..n], order[n]);
      assert order == init + [j];
      WritesTyped(s, args, init);
      WrittenHolds(s, args, init, i);
      ArgMeans(t, s.fields[j], j, args[j]);
      var ws := WritesOf(s.fields[j], j, args[j]);
      MeaningNext(t, Writes(s, args, init), ws, i);
      assert ws != [] ==> ws[0] in ws;
    }
  }

  lemma {:induction false} NothingWritten(t: Schema, i: nat)
    requires WellFormed(t) && i < |t.fields|
    ensures Typed(t, []) && Meaning(t, []).vals[i] == DefaultValue(t.fields[i])
  {
    hide WellFormed;
  }

  // ---- the emitted Wrap ----

  datatype EmittedView = Opened(view: View) | NotAFrame(e: ParseError) | OtherKind(got: byte) | SlicePanic

  /**
   The end is cut back to the end of the data, so a payload that is not all there opens as a shorter
   view; a root past the end makes the slice panic.
   */
  function EmittedWrap(b: Bytes, element: bool, kind: byte, size: nat): (r: EmittedView)
    ensures r.Opened? ==> InBounds(r.view) && r.view.size <= size
    ensures r.Opened? && r.view.size < size ==> r.view.off + r.view.size == |r.view.data|
  {
    match Parse(b)
    case Rejected(e) => NotAFrame(e)
    case Parsed(d) =>
      var root := Root(d);
      var got := if root < |d| then d[root] else 0;
      if !element && got != kind then OtherKind(got)
      else
        var end := if root + size > |d| then |d| else root + size;
        if root > end then SlicePanic else Opened(View(d, root, end - root))
  }

  /** On messages it opens whole the emitted Wrap is Wrap, and on no others. */
  lemma {:induction false} EmittedWrapIsWrap(b: Bytes, kind: byte, size: nat, v: View)
    requires size >= 1
    ensures EmittedWrap(b, false, kind, size) == Opened(v) && v.size == size <==> Wrap(b, kind, size) == Wrapped(v)
  {
    hide Parse;
  }

  /** Every message that fits opens; a root past the end panics exactly where no kind is compared or it is zero. */
  lemma {:induction false} EmittedWrapPanics(b: Bytes, element: bool, kind: byte, size: nat)
    ensures EmittedWrap(b, element, kind, size) == SlicePanic <==>
              Parse(b).Parsed? && Root(Parse(b).data) > |Parse(b).data| && (element || kind == 0)
  {
    hide Parse;
  }

  /** A field that a shorter view does not hold reads as zeros, and any other as the bytes of the frame. */
  lemma {:induction false} ShorterReads(b: Bytes, element: bool, kind: byte, size: nat, off: nat, width: nat)
    requires EmittedWrap(b, element, kind, size).Opened?
    ensures var v := EmittedWrap(b, element, kind, size).view;
      && v.data <= b && HEADER <= |v.data| && Root(v.data) == v.off
      && Read(v, off, width) ==
           if off + width <= size && v.off + off + width <= |v.data| then b[v.off + off..v.off + off + width]
           else Zeros(width)
  {
    hide Read;
    var v := EmittedWrap(b, element, kind, size).view;
    OpenedParsed(b, element, kind, size);
    ReadExactly(v, off, width);
    if off + width <= v.size {
      SlicesOfInput(b, v.data, v.off + off, width);
    }
  }

  lemma {:induction false} OpenedParsed(b: Bytes, element: bool, kind: byte, size: nat)
    requires EmittedWrap(b, element, kind, size).Opened?
    ensures var v := EmittedWrap(b, element, kind, size).view;
      && v.data <= b && HEADER <= |v.data| && Root(v.data) == v.off
      && v.size == if v.off + size <= |v.data| then size else |v.data| - v.off
  {
    hide Root;
    var d := Parse(b).data;
  }

  lemma {:induction false} ReadExactly(v: View, off: nat, width: nat)
    requires InBounds(v)
    ensures Read(v, off, width) ==
      if off + width <= v.size then v.data[v.off + off..v.off + off + width] else Zeros(width)
  {
    if off + width <= v.size {
      SliceOfSlice(v.data, v.off, v.size, off, width);
    }
  }

  // ---- the theorem ----

  /** The root object before the fields are written; only a message is stamped with its kind. */
  ghost function EmittedStart(s: SchemaDecl, kind: byte): (r: Bytes)
    requires s.size >= 1 && AllEmittable(s)
    ensures |r| == HEADER + s.size
  {
    if s.element then StartObjectS(InitialS(VERSION2), s.size).0 else StartS(ToSchema(s), kind)
  }

  ghost function Constructed(s: SchemaDecl, kind: byte, args: seq<Arg>): Bytes
    requires s.size >= 1 && AllEmittable(s) && ArgsOk(s, args)
    requires WellFormed(ToSchema(s)) && Typed(ToSchema(s), Constructor(s, args))
  {
    FinishS(Exec(EmittedStart(s, kind), HEADER, ToSchema(s), Constructor(s, args)), HEADER)
  }

  lemma {:induction false} EmittedStartEncodes(s: SchemaDecl, kind: byte)
    requires s.size >= 1 && AllEmittable(s) && WellFormed(ToSchema(s))
    requires !s.element ==> TopLevel(ToSchema(s))
    ensures var (r, t) := (EmittedStart(s, kind), ToSchema(s));
      && Encodes(r, HEADER, |r|, t, Default(t))
      && r[..6] == MAGIC + LE(VERSION2, 2)
      && (!s.element ==> r[HEADER] == kind)
  {
    hide WellFormed, Encodes, Default, Emittable, ToFieldDef;
    var (r, t) := (EmittedStart(s, kind), ToSchema(s));
    if s.element {
      assert InitialS(VERSION2)[..6] == MAGIC + LE(VERSION2, 2);
      assert r[..6] == InitialS(VERSION2)[..6];
      ZeroEncodesDefault(r, HEADER, 0, t);
    } else {
      StartEncodes(t, kind);
    }
  }

  /** Its message is opened whole by the emitted Wrap. */
  lemma {:induction false} ConstructedOpens(s: SchemaDecl, kind: byte, args: seq<Arg>)
    requires s.size >= 1 && AllEmittable(s) && ArgsOk(s, args)
    requires WellFormed(ToSchema(s)) && Typed(ToSchema(s), Constructor(s, args))
    requires !s.element ==> TopLevel(ToSchema(s))
    requires |Constructed(s, kind, args)| < TWO31
    ensures var msg := Constructed(s, kind, args);
      EmittedWrap(msg, s.element, kind, s.size) == Opened(View(msg, HEADER, s.size))
  {
    hide EmittedStart, Exec, FinishS, Parse, Constructor, ToFieldDef, Emittable, ArgOk, WellFormed, Encodes;
    var (r, t, prog) := (EmittedStart(s, kind), ToSchema(s), Constructor(s, args));
    var e := Exec(r, HEADER, t, prog);
    EmittedStartEncodes(s, kind);
    ExecKeeps(r, HEADER, t, prog);
    assert e[..6] == r[..6];
    if !s.element {
      UnownedByteKept(r, HEADER, t, prog, HEADER);
    }
    FinishedHeader(e, HEADER);
    FinishedBody(e, HEADER);
    HeadKept(e);
    ParseFinished(e, HEADER);
  }

  /** And by the emitted Wrap of no other kind. */
  lemma {:induction false} ConstructedKind(s: SchemaDecl, kind: byte, args: seq<Arg>, other: byte)
    requires s.size >= 1 && AllEmittable(s) && ArgsOk(s, args) && !s.element && other != kind
    requires WellFormed(ToSchema(s)) && Typed(ToSchema(s), Constructor(s, args)) && TopLevel(ToSchema(s))
    requires |Constructed(s, kind, args)| < TWO31
    ensures EmittedWrap(Constructed(s, kind, args), false, other, s.size) == OtherKind(kind)
  {
    hide Parse, Constructed, Constructor, ToFieldDef, Emittable, ArgOk, WellFormed, TopLevel;
    ConstructedOpens(s, kind, args);
  }

  /** Everything but an inline list of several elements whose size is not a multiple of eight. */
  ghost predicate ReadsWhole(f: Field, a: Arg)
    requires Emittable(f) && ArgOk(f, a)
  {
    f.elem.Some? && !Tailed(f.elem.value) ==> Divides(f.elem.value, |a.items|)
  }

  lemma {:induction false} ReadsWholeIsWhole(f: Field, a: Arg)
    requires Emittable(f) && ArgOk(f, a) && ReadsWhole(f, a)
    ensures WholeValue(ArgValue(f, a))
  {
    hide ElemOk, ItemOk, ItemRecord, BytesWidth, Tailed, ListSlots, Whole;
    if f.elem.Some? {
      var e := f.elem.value;
      forall k | 0 <= k < |a.items| ensures Whole(ItemRecords(e, a.items)[k]) { ItemIsWhole(e, a.items[k]); }
    } else if f.nested.Some? && a.item.Some? {
      ItemIsWhole(f.nested.value, a.item.value);
    }
  }

  lemma {:induction false} ItemIsWhole(e: ElemDecl, item: seq<Bytes>)
    requires ElemOk(e) && ItemOk(e, item)
    ensures Whole(ItemRecord(e, item))
  {
    hide ElemOk, BytesWidth, PlainDef;
    var rec := ItemRecord(e, item);
    forall k | 0 <= k < |item| ensures WholeValue(rec.vals[k])
    {
      ElemFieldPlain(e, k);
      assert rec.vals[k] == PlainValue(e.fields[k], item[k]);
    }
  }

  /**
   For every accepted schema, of a message or of elements, the message its constructor makes is opened by
   its Wrap, and each field reads back its own argument: scalars, byte arrays, strings, nested objects and
   lists. Of an inline list out of stride only the found slots are told.
   */
  lemma {:induction false} ConstructorReadsBack(s: SchemaDecl, kind: byte, args: seq<Arg>)
    requires NamedButLast(NamesOf(s)) && Accepted(s) && s.size >= 1 && AllEmittable(s) && ArgsOk(s, args)
    ensures WellFormed(ToSchema(s)) && Typed(ToSchema(s), Constructor(s, args))
    ensures |Constructed(s, kind, args)| < TWO31 ==>
      var (msg, t) := (Constructed(s, kind, args), ToSchema(s));
      && EmittedWrap(msg, s.element, kind, s.size) == Opened(View(msg, HEADER, s.size))
      && forall i :: 0 <= i < |s.fields| ==>
           var got := ReadField(View(msg, HEADER, s.size), t.fields[i]);
           && ValueAgrees(ArgValue(s.fields[i], args[i]), got)
           && (ReadsWhole(s.fields[i], args[i]) ==> got == ArgValue(s.fields[i], args[i]))
  {
    hide WellLaid, Accepted, Emittable, ArgOk, ToFieldDef, WellFormed, Constructed, EmittedWrap, TopLevel;
    AcceptedIffWellLaid(s);
    AcceptedIsWellFormed(s);
    WritesTyped(s, args, Order(s));
    if |Constructed(s, kind, args)| < TWO31 {
      ConstructedOpens(s, kind, args);
      forall i | 0 <= i < |s.fields|
        ensures var got := ReadField(View(Constructed(s, kind, args), HEADER, s.size), ToSchema(s).fields[i]);
          && ValueAgrees(ArgValue(s.fields[i], args[i]), got)
          && (ReadsWhole(s.fields[i], args[i]) ==> got == ArgValue(s.fields[i], args[i]))
      {
        FieldReadsBack(s, kind, args, i);
      }
    }
  }

  /** On the wire: a list of scalar-only elements is an inline one, any other an array of pointers. */
  lemma {:induction false} ListFieldForms(s: SchemaDecl, kind: byte, args: seq<Arg>, i: nat)
    requires NamedButLast(NamesOf(s)) && Accepted(s) && s.size >= 1 && AllEmittable(s) && ArgsOk(s, args)
    requires WellFormed(ToSchema(s)) && Typed(ToSchema(s), Constructor(s, args))
    requires |Constructed(s, kind, args)| < TWO31 && i < |s.fields| && s.fields[i].elem.Some?
    ensures var (f, v, e) := (s.fields[i], View(Constructed(s, kind, args), HEADER, s.size), s.fields[i].elem.value);
      && InBounds(v)
      && ((exists k :: 0 <= k < |e.fields| && e.fields[k].typ in {"string", "bytes"}) ==>
            ReadField(v, Children(f.offset, ToSub(e))) == ChildrenV(ItemRecords(e, args[i].items)))
      && (!(exists k :: 0 <= k < |e.fields| && e.fields[k].typ in {"string", "bytes"}) ==>
            var got := ReadField(v, Elems(f.offset, ToSub(e)));
            got.ElemsV? && got.payloads == ListSlots(e, args[i].items))
  {
    hide Accepted, Constructed, Constructor, ElemOk, ArgsOk, ReadField, EmittedWrap, ItemRecords, ListSlots, WellFormed;
    ConstructorReadsBack(s, kind, args);
    assert ArgOk(s.fields[i], args[i]) by { ArgAt(s, args, i); }
    assert ToSchema(s).fields[i] == ToFieldDef(s.fields[i]);
    TailedIs(s.fields[i].elem.value);
  }

  lemma {:induction false} ArgAt(s: SchemaDecl, args: seq<Arg>, i: nat)
    requires AllEmittable(s) && ArgsOk(s, args) && i < |s.fields|
    ensures |args| == |s.fields| && ArgOk(s.fields[i], args[i])
  {
  }

  lemma {:induction false} TailedIs(e: ElemDecl)
    ensures Tailed(e) <==> exists k :: 0 <= k < |e.fields| && e.fields[k].typ in {"string", "bytes"}
  {
  }

  lemma {:induction false} FieldReadsBack(s: SchemaDecl, kind: byte, args: seq<Arg>, i: nat)
    requires s.size >= 1 && AllEmittable(s) && ArgsOk(s, args) && i < |s.fields|
    requires WellFormed(ToSchema(s)) && Typed(ToSchema(s), Constructor(s, args))
    requires !s.element ==> TopLevel(ToSchema(s))
    requires HEADER + s.size <= |Constructed(s, kind, args)| < TWO31
    ensures var got := ReadField(View(Constructed(s, kind, args), HEADER, s.size), ToSchema(s).fields[i]);
      && ValueAgrees(ArgValue(s.fields[i], args[i]), got)
      && (ReadsWhole(s.fields[i], args[i]) ==> got == ArgValue(s.fields[i], args[i]))
  {
    hide Emittable, ArgOk, ToFieldDef, WellFormed, EmittedStart, Exec, FinishS, Meaning, Order, ArgValue, ReadsWhole,
      ReadField, Encodes, TopLevel, ValueAgrees, Writes;
    var (f, a, t) := (s.fields[i], args[i], ToSchema(s));
    EmittedStartEncodes(s, kind);
    FinishedAgrees(EmittedStart(s, kind), t, Constructor(s, args));
    WrittenHolds(s, args, Order(s), i);
    var v := View(Constructed(s, kind, args), HEADER, s.size);
    assert ReadRecord(v, t).vals[i] == ReadField(v, t.fields[i]);
    if ReadsWhole(f, a) {
      ReadsWholeIsWhole(f, a);
      WholeValueAgrees(ArgValue(f, a), ReadField(v, t.fields[i]));
    }
  }
}
