/**
 The 0x9999 calldata encoders (swap and modifyLiquidity) and an independent decoder for the same
 signatures, after the Solidity Contract ABI Specification, "Formal Specification of the
 Encoding".
 */
module Calldata {
  import opened ByteStrings

  /** One ABI word, most significant byte first. */
  type Word = w: Bytes | |w| == 32 witness Zeros(32)

  /** 2^256. */
  function Modulus(): nat
  {
    Pow256(32)
  }

  /** The word whose value is x modulo 2^256: two's complement for negative x. */
  function WordOf(x: int): (w: Word)
    ensures FromBE(w) == x % Modulus()
  {
    BERoundTrip(x % Modulus(), 32);
    BE(x % Modulus(), 32)
  }

  lemma {:induction false} WordOfValue(w: Bytes, x: int)
    requires |w| == 32 && FromBE(w) == x % Modulus()
    ensures w == WordOf(x)
  {
    hide Pow256, FromBE;
    FromBERoundTrip(w);
  }

  /** One more byte at the end. */
  lemma {:induction false} FromBELast(s: Bytes, x: byte)
    ensures FromBE(s + [x]) == 256 * FromBE(s) + x
  {
    assert (s + [x])[..|s|] == s;
  }

  lemma {:induction false} Horner(f: nat, p: nat, g: nat, x: nat)
    ensures 256 * (f * p + g) + x == f * (256 * p) + (256 * g + x)
  {
  }

  lemma {:induction false} FromBEConcat(a: Bytes, s: Bytes)
    ensures FromBE(a + s) == FromBE(a) * Pow256(|s|) + FromBE(s)
    decreases |s|
  {
    hide FromBE, Pow256;
    if s == [] {
      EmptyValue();
      assert a + s == a;
    } else {
      var n := |s| - 1;
      FromBEConcat(a, s[..n]);
      FromBELast(s[..n], s[n]);
      FromBELast(a + s[..n], s[n]);
      assert s[..n] + [s[n]] == s && a + s[..n] + [s[n]] == a + s;
      PowSucc(n);
      Horner(FromBE(a), Pow256(n), FromBE(s[..n]), s[n]);
    }
  }

  lemma {:induction false} FromBECons(b: byte, s: Bytes)
    ensures FromBE([b] + s) == b * Pow256(|s|) + FromBE(s)
  {
    FromBEConcat([b], s);
    FromBELast([], b);
    assert [] + [b] == [b];
  }

  lemma {:induction false} FromBEZeros(n: nat)
    ensures FromBE(Zeros(n)) == 0
  {
    if n > 0 {
      FromBEZeros(n - 1);
      assert Zeros(n)[..n - 1] == Zeros(n - 1);
    }
  }

  function Ones(n: nat): (z: Bytes)
    ensures |z| == n && forall i :: 0 <= i < n ==> z[i] == 255
  {
    seq(n, _ => 255)
  }

  lemma {:induction false} FromBEOnes(n: nat)
    ensures FromBE(Ones(n)) == Pow256(n) - 1
  {
    if n > 0 {
      FromBEOnes(n - 1);
      assert Ones(n)[..n - 1] == Ones(n - 1);
    }
  }

  lemma {:induction false} PowAdd(a: nat, b: nat)
    ensures Pow256(a + b) == Pow256(a) * Pow256(b)
  {
    if b > 0 {
      PowAdd(a, b - 1);
      var p, q := Pow256(a), Pow256(b - 1);
      assert 256 * (p * q) == p * (256 * q);
    }
  }

  // ---- words ----

  method PutWord(a: array<byte>, off: nat, d: Bytes)
    requires off + |d| <= a.Length
    modifies a
    ensures a[..] == Put(old(a[..]), off, d)
  {
    for i := 0 to |d|
      invariant a[..] == Put(old(a[..]), off, d[..i])
    {
      a[off + i] := d[i];
      assert d[..i + 1] == d[..i] + [d[i]];
    }
    assert d[..|d|] == d;
  }

  /** wordAddr: twenty bytes, right-aligned. */
  function WordAddr(a: Bytes): (w: Word)
    requires |a| == 20
  {
    Zeros(12) + a
  }

  /** wordU24 keeps the low three bytes. */
  function WordU24(v: nat): (w: Word)
  {
    Zeros(29) + [v / 0x1_0000 % 256, v / 0x100 % 256, v % 256]
  }

  function WordU64(v: nat): (w: Word)
  {
    Zeros(24) + BE(v, 8)
  }

  function WordBool(b: bool): (w: Word)
  {
    Zeros(31) + [if b then 1 else 0]
  }

  lemma {:induction false} LeftPadded(n: nat, s: Bytes)
    ensures FromBE(Zeros(n) + s) == FromBE(s)
  {
    hide Pow256, FromBE;
    FromBEConcat(Zeros(n), s);
    FromBEZeros(n);
  }

  lemma {:induction false} PowLess(a: nat, b: nat)
    requires a <= b
    ensures Pow256(a) <= Pow256(b)
  {
    hide Pow256;
    PowAdd(a, b - a);
    MulAtLeast(Pow256(a), Pow256(b - a));
  }

  /** A short value in the low bytes is its word. */
  lemma {:induction false} LeftPaddedWord(s: Bytes)
    requires |s| <= 32
    ensures Zeros(32 - |s|) + s == WordOf(FromBE(s))
  {
    hide Pow256, FromBE, BE, WordOf;
    LeftPadded(32 - |s|, s);
    PowLess(|s|, 32);
    SmallMod(FromBE(s), Modulus());
    WordOfValue(Zeros(32 - |s|) + s, FromBE(s));
  }

  lemma {:induction false} SmallMod(x: int, m: int)
    requires 0 <= x < m
    ensures x % m == x
  {
  }

  lemma {:induction false} WordU64Value(v: nat)
    requires v < TWO64
    ensures WordU64(v) == WordOf(v)
  {
    hide Pow256, FromBE, BE, WordOf;
    PowFacts();
    BERoundTrip(v, 8);
    LeftPaddedWord(BE(v, 8));
  }

  lemma {:induction false} WordU24Value(v: nat)
    ensures WordU24(v) == WordOf(v % 0x100_0000)
  {
    hide WordOf;
    var a: byte, b: byte, c: byte := v / 0x1_0000 % 256, v / 0x100 % 256, v % 256;
    ThreeBytes(a, b, c);
    LowThree(v);
    LeftPaddedWord([a, b, c]);
  }

  lemma {:induction false} LowThree(v: nat)
    ensures v % 0x100_0000 == 0x1_0000 * (v / 0x1_0000 % 256) + 0x100 * (v / 0x100 % 256) + v % 256
  {
    ByteDigits(v);
    var low := 0x1_0000 * (v / 0x1_0000 % 256) + 0x100 * (v / 0x100 % 256) + v % 256;
    DivUnique(v, 0x100_0000, v / 0x100_0000, low);
  }

  lemma {:induction false} ThreeBytes(a: byte, b: byte, c: byte)
    ensures FromBE([a, b, c]) == 0x1_0000 * (a as int) + 0x100 * (b as int) + c
  {
    hide Pow256;
    assert [a, b, c][..2] == [a, b] && [a, b][..1] == [a] && [a][..0] == [];
    assert FromBE([a]) == a;
    assert FromBE([a, b]) == 256 * (a as int) + b;
  }

  lemma {:induction false} WordBoolValue(b: bool)
    ensures WordBool(b) == WordOf(if b then 1 else 0)
  {
    var s: Bytes := [if b then 1 else 0];
    assert s[..0] == [];
    LeftPaddedWord(s);
  }

  /**
   new256Neg: invert every byte and add one, carrying from the last byte to the first.  The
   result is 2^256 - v for every v > 0, and zero for v = 0.
   */
  method New256Neg(v: int) returns (w: Bytes)
    requires 0 <= v < TWO64
    ensures |w| == 32 && w == WordOf(-v)
    ensures v > 0 ==> FromBE(w) == Modulus() - v
  {
    EmptyValue();
    hide Pow256, FromBE, BE, WordOf;
    var a := new byte[32](_ => 0);
    PutWord(a, 24, BE(v, 8));
    ghost var orig := a[..];
    assert orig == WordU64(v);
    WordU64Value(v);
    WordValue(v);
    assert a[32..] == [] && orig[32..] == [];
    var carry, i := 1, 32;
    while i > 0
      invariant 0 <= i <= 32 && 0 <= carry <= 1
      invariant a[..i] == orig[..i]
      invariant FromBE(a[i..]) + carry * Pow256(32 - i) == Pow256(32 - i) - FromBE(orig[i..])
    {
      i := i - 1;
      ghost var rest, restOrig := a[i + 1..], orig[i + 1..];
      var b := a[i];
      assert b == orig[i] by {
        assert a[..i + 1][i] == orig[..i + 1][i];
      }
      var s := (255 - b) + carry;
      CarryStep(b, carry, Pow256(31 - i), FromBE(rest), FromBE(restOrig));
      a[i], carry := s % 256, s / 256;
      assert a[i + 1..] == rest;
      assert a[i..] == [s % 256] + rest && orig[i..] == [b] + restOrig;
      FromBECons(s % 256, rest);
      FromBECons(b, restOrig);
      PowSucc(31 - i);
    }
    w := a[..];
    assert a[0..] == w && orig[0..] == orig;
    NegValue(v, FromBE(w), carry);
    WordOfValue(w, -v);
  }

  lemma {:induction false} EmptyValue()
    ensures FromBE([]) == 0 && Pow256(0) == 1
  {
  }

  lemma {:induction false} PowSucc(n: nat)
    ensures Pow256(n + 1) == 256 * Pow256(n)
  {
  }

  /** A 64-bit value is the value of its word. */
  lemma {:induction false} WordValue(v: int)
    requires 0 <= v < TWO64
    ensures FromBE(WordOf(v)) == v
  {
    hide Pow256, FromBE, BE, WordOf;
    PowFacts();
    PowLess(8, 32);
    SmallMod(v, Modulus());
  }

  lemma {:induction false} CarryStep(b: int, carry: int, p: nat, f: nat, g: nat)
    requires 0 <= b < 256 && 0 <= carry <= 1 && f + carry * p == p - g
    ensures var s := (255 - b) + carry;
            0 <= s / 256 <= 1 && (s % 256) * p + f + (s / 256) * (256 * p) == 256 * p - (b * p + g)
  {
    var s := (255 - b) + carry;
    var q, r := s / 256, s % 256;
    assert s == 256 * q + r;
    assert (256 * q + r) * p == 256 * (q * p) + r * p;
    assert q * (256 * p) == 256 * (q * p);
    assert s * p == 255 * p - b * p + carry * p;
  }

  lemma {:induction false} NegValue(v: int, f: int, carry: int)
    requires 0 <= v < TWO64 && 0 <= carry <= 1 && 0 <= f < Modulus() && f + carry * Modulus() == Modulus() - v
    ensures f == (-v) % Modulus()
    ensures v > 0 ==> f == Modulus() - v
  {
    hide Pow256;
    PowFacts();
    PowLess(8, 32);
    if carry == 0 {
      ModNeg(v, Modulus());
    }
  }

  lemma {:induction false} ModNeg(v: int, m: int)
    requires 0 < v < m
    ensures (-v) % m == m - v
  {
  }

  /** The sign-extended word of a negative 64-bit value. */
  lemma {:induction false} SignExtended(u: int)
    requires 0 < u <= TWO63
    ensures Ones(24) + BE(TWO64 - u, 8) == WordOf(-u)
  {
    hide Pow256, FromBE, BE, WordOf;
    PowFacts();
    BERoundTrip(TWO64 - u, 8);
    var w := Ones(24) + BE(TWO64 - u, 8);
    FromBEConcat(Ones(24), BE(TWO64 - u, 8));
    FromBEOnes(24);
    PowAdd(24, 8);
    var p := Pow256(24);
    assert (p - 1) * TWO64 + (TWO64 - u) == p * TWO64 - u;
    ModNeg(u, Modulus());
    WordOfValue(w, -u);
  }

  /** The low eight bytes, from the last byte up. */
  method StoreLow(a: array<byte>, u: nat)
    requires a.Length == 32 && a[..] == Zeros(32)
    modifies a
    ensures a[..] == Zeros(24) + BE(u, 8)
  {
    var x := u;
    for i := 0 to 8
      invariant x == Shifted(u, i)
      invariant a[..] == Zeros(32 - i) + BE(u, i)
    {
      BEShift(u, i);
      a[31 - i] := x % 256;
      x := x / 256;
      assert a[..] == Zeros(31 - i) + ([Shifted(u, i) % 256] + BE(u, i));
    }
  }

  method StoreSign(a: array<byte>, low: Bytes)
    requires a.Length == 32 && |low| == 8 && a[..] == Zeros(24) + low
    modifies a
    ensures a[..] == Ones(24) + low
  {
    for i := 8 to 32
      invariant a[..] == Zeros(32 - i) + Ones(i - 8) + low
    {
      a[31 - i] := 0xff;
    }
    assert Zeros(0) + Ones(24) == Ones(24);
  }

  /** wordI24: eight bytes of the 64-bit two's complement, then the sign. */
  method WordI24(v: int) returns (w: Bytes)
    requires -TWO31 <= v < TWO31
    ensures |w| == 32 && w == WordOf(v)
  {
    hide Pow256, FromBE, BE, WordOf;
    var a := new byte[32](_ => 0);
    assert a[..] == Zeros(32);
    var u := v % TWO64;
    StoreLow(a, u);
    if v < 0 {
      StoreSign(a, BE(u, 8));
      SignExtended(-v);
    } else {
      WordU64Value(u);
    }
    w := a[..];
  }

  function Shifted(u: nat, i: nat): nat
  {
    if i == 0 then u else Shifted(u, i - 1) / 256
  }

  /** Byte i of u sits in front of its i low bytes. */
  lemma {:induction false} BEShift(u: nat, i: nat)
    ensures BE(u, i + 1) == [Shifted(u, i) % 256] + BE(u, i)
  {
    if i > 0 {
      BEShift(u / 256, i - 1);
      ShiftedDiv(u, i);
    }
  }

  lemma {:induction false} ShiftedDiv(u: nat, i: nat)
    requires i > 0
    ensures Shifted(u, i) == Shifted(u / 256, i - 1)
  {
    if i > 1 {
      ShiftedDiv(u, i - 1);
    }
  }

  method WordI256FromInt64(v: int) returns (w: Bytes)
    requires -TWO63 <= v < TWO63
    ensures |w| == 32 && w == WordOf(v)
  {
    hide Pow256, FromBE, BE, WordOf;
    var a := new byte[32](_ => 0);
    var u := v % TWO64;
    PutWord(a, 24, BE(u, 8));
    assert a[..] == Zeros(24) + BE(u, 8);
    if v < 0 {
      ExtendSign(a, BE(u, 8));
      SignExtended(-v);
    } else {
      WordU64Value(u);
    }
    w := a[..];
  }

  method ExtendSign(a: array<byte>, low: Bytes)
    requires a.Length == 32 && |low| == 8 && a[..] == Zeros(24) + low
    modifies a
    ensures a[..] == Ones(24) + low
  {
    for i := 0 to 24
      invariant a[..] == Ones(i) + Zeros(24 - i) + low
    {
      a[i] := 0xff;
    }
    assert Ones(24) + Zeros(0) == Ones(24);
  }

  // ---- dynamic bytes and hookData ----

  function PaddedLen(n: nat): (p: nat)
    ensures n <= p < n + 32 && p % 32 == 0
  {
    (n + 31) / 32 * 32
  }

  /** encodeDynamicBytes: a length word, then the bytes, zero-padded to whole words. */
  function DynamicBytes(b: Bytes): Bytes
  {
    WordU64(|b| % TWO64) + b + Zeros(PaddedLen(|b|) - |b|)
  }

  /** A zeroed buffer of whole words; the length and the bytes are copied in. */
  method EncodeDynamicBytes(b: Bytes) returns (out: Bytes)
    ensures out == DynamicBytes(b)
    ensures |out| % 32 == 0 && 32 + |b| <= |out| < 32 + |b| + 32
    ensures out[32..32 + |b|] == b && forall i :: 32 + |b| <= i < |out| ==> out[i] == 0
  {
    hide WordU64;
    var padded := PaddedLen(|b|);
    var a := new byte[32 + padded](_ => 0);
    PutWord(a, 0, WordU64(|b| % TWO64));
    PutWord(a, 32, b);
    out := a[..];
    assert out == a[..32] + a[32..32 + |b|] + a[32 + |b|..];
  }

  const INTENT_TAG: Bytes := [0x44, 0x49, 0x30, 0x31]

  function IntentHookData(deadline: nat, nonce: nat): Bytes
  {
    if deadline == 0 && nonce == 0 then INTENT_TAG
    else if nonce == 0 then INTENT_TAG + WordU64(deadline)
    else INTENT_TAG + WordU64(deadline) + WordU64(nonce)
  }

  /** The three widths an intent body may have. */
  function DecodeIntent(h: Bytes): Option<(nat, nat)>
  {
    if |h| < 4 || h[..4] != INTENT_TAG then None
    else if |h| == 4 then Some((0, 0))
    else if |h| == 36 then Some((FromBE(h[4..]), 0))
    else if |h| == 68 then Some((FromBE(h[4..36]), FromBE(h[36..])))
    else None
  }

  lemma {:induction false} IntentRoundTrip(deadline: nat, nonce: nat)
    requires deadline < TWO64 && nonce < TWO64
    ensures DecodeIntent(IntentHookData(deadline, nonce)) == Some((deadline, nonce))
  {
    hide WordU64, FromBE;
    var h := IntentHookData(deadline, nonce);
    assert h[..4] == INTENT_TAG;
    U64Value(deadline);
    U64Value(nonce);
    if nonce == 0 {
      if deadline != 0 {
        assert h[4..] == WordU64(deadline);
      }
    } else {
      assert h[4..36] == WordU64(deadline) && h[36..] == WordU64(nonce);
    }
  }

  /** And it is the shortest body that does. */
  lemma {:induction false} IntentShortest(deadline: nat, nonce: nat, h: Bytes)
    requires DecodeIntent(h) == Some((deadline, nonce))
    ensures |IntentHookData(deadline, nonce)| <= |h|
  {
    hide WordU64, FromBE;
  }

  lemma {:induction false} U64Value(v: nat)
    requires v < TWO64
    ensures FromBE(WordU64(v)) == v
  {
    WordU64Value(v);
    WordValue(v);
  }

  // ---- calldata ----

  const SELECTOR_SWAP: nat := 0xF3CD914C
  const SELECTOR_MODIFY: nat := 0x5A6BCFDA

  datatype PoolKey = PoolKey(currency0: Bytes, currency1: Bytes, fee: nat, tickSpacing: int, hooks: Bytes)

  /** Accounts are twenty bytes, fee a uint32 and tickSpacing an int32 in the Go code. */
  predicate ValidKey(pk: PoolKey)
  {
    && |pk.currency0| == 20 && |pk.currency1| == 20 && |pk.hooks| == 20
    && pk.fee < TWO32 && -TWO31 <= pk.tickSpacing < TWO31
  }

  function Flat(words: seq<Word>): (r: Bytes)
    ensures |r| == 32 * |words|
  {
    if words == [] then [] else Flat(words[..|words| - 1]) + words[|words| - 1]
  }

  function KeyWords(pk: PoolKey): seq<Word>
    requires ValidKey(pk)
  {
    [WordAddr(pk.currency0), WordAddr(pk.currency1), WordU24(pk.fee), WordOf(pk.tickSpacing), WordAddr(pk.hooks)]
  }

  function SwapWords(pk: PoolKey, zeroForOne: bool, amountIn: int): seq<Word>
    requires ValidKey(pk)
  {
    KeyWords(pk) + [WordBool(zeroForOne), WordOf(-amountIn), Zeros(32), WordU64(9 * 32)]
  }

  function ModifyWords(pk: PoolKey, tickLower: int, tickUpper: int, delta: int, salt: Word): seq<Word>
    requires ValidKey(pk)
  {
    KeyWords(pk) + [WordOf(tickLower), WordOf(tickUpper), WordOf(delta), salt, WordU64(10 * 32)]
  }

  function CalldataOf(selector: nat, words: seq<Word>, hookData: Bytes): Bytes
  {
    BE(selector, 4) + Flat(words) + DynamicBytes(hookData)
  }

  /** The head: a selector and words put at a running offset. */
  method PutHead(selector: nat, words: seq<Word>) returns (head: Bytes)
    ensures head == BE(selector, 4) + Flat(words)
  {
    hide BE;
    var a := new byte[4 + |words| * 32](_ => 0);
    PutWord(a, 0, BE(selector, 4));
    var off := 4;
    for i := 0 to |words|
      invariant off == 4 + 32 * i
      invariant a[..off] == BE(selector, 4) + Flat(words[..i])
    {
      PutWord(a, off, words[i]);
      off := off + 32;
      assert words[..i + 1][..i] == words[..i];
      assert a[..off] == a[..off - 32] + words[i];
    }
    assert words[..|words|] == words;
    head := a[..];
    assert a[..off] == a[..];
  }

  method EncodeSwapCalldata(pk: PoolKey, zeroForOne: bool, amountIn: int, hookData: Bytes) returns (out: Bytes)
    requires ValidKey(pk) && 0 <= amountIn < TWO64
    ensures out == CalldataOf(SELECTOR_SWAP, SwapWords(pk, zeroForOne, amountIn), hookData)
    ensures (|out| - 4) % 32 == 0 && 324 + |hookData| <= |out| < 324 + |hookData| + 32
    ensures out[324..324 + |hookData|] == hookData && forall i :: 324 + |hookData| <= i < |out| ==> out[i] == 0
  {
    hide WordOf, BE, Flat, WordAddr, WordU24, WordU64, WordBool, DynamicBytes;
    var tick := WordI24(pk.tickSpacing);
    var amount := New256Neg(amountIn);
    var words: seq<Word> :=
      [WordAddr(pk.currency0), WordAddr(pk.currency1), WordU24(pk.fee), tick, WordAddr(pk.hooks),
       WordBool(zeroForOne), amount, Zeros(32), WordU64(9 * 32)];
    assert words == SwapWords(pk, zeroForOne, amountIn);
    var head := PutHead(SELECTOR_SWAP, words);
    var tail := EncodeDynamicBytes(hookData);
    out := head + tail;
    CalldataShape(SELECTOR_SWAP, words, hookData);
  }

  method EncodeModifyLiquidityCalldata(pk: PoolKey, tickLower: int, tickUpper: int, delta: int, salt: Bytes,
                                       hookData: Bytes) returns (out: Bytes)
    requires ValidKey(pk) && |salt| == 32
    requires -TWO31 <= tickLower < TWO31 && -TWO31 <= tickUpper < TWO31 && -TWO63 <= delta < TWO63
    ensures out == CalldataOf(SELECTOR_MODIFY, ModifyWords(pk, tickLower, tickUpper, delta, salt), hookData)
    ensures (|out| - 4) % 32 == 0 && 356 + |hookData| <= |out| < 356 + |hookData| + 32
    ensures out[356..356 + |hookData|] == hookData && forall i :: 356 + |hookData| <= i < |out| ==> out[i] == 0
  {
    hide WordOf, BE, Flat, WordAddr, WordU24, WordU64, WordBool, DynamicBytes;
    var tick := WordI24(pk.tickSpacing);
    var lower := WordI24(tickLower);
    var upper := WordI24(tickUpper);
    var amount := WordI256FromInt64(delta);
    var words: seq<Word> :=
      [WordAddr(pk.currency0), WordAddr(pk.currency1), WordU24(pk.fee), tick, WordAddr(pk.hooks),
       lower, upper, amount, salt, WordU64(10 * 32)];
    assert words == ModifyWords(pk, tickLower, tickUpper, delta, salt);
    var head := PutHead(SELECTOR_MODIFY, words);
    var tail := EncodeDynamicBytes(hookData);
    out := head + tail;
    CalldataShape(SELECTOR_MODIFY, words, hookData);
  }

  // ---- an ABI decoder ----

  /** int<bits>: the value of a word read as a signed 256-bit number. */
  function Signed(w: Word): int
  {
    var x := FromBE(w);
    if x < Modulus() / 2 then x else x - Modulus()
  }

  predicate FitsInt24(x: int)
  {
    -0x80_0000 <= x < 0x80_0000
  }

  /** Argument word i. */
  function Arg(d: Bytes, i: nat): (w: Word)
    requires 4 + 32 * i + 32 <= |d|
  {
    d[4 + 32 * i..4 + 32 * i + 32]
  }

  /** address: the low twenty bytes, the rest zero. */
  function AsAddress(w: Word): Option<Bytes>
  {
    if w[..12] == Zeros(12) then Some(w[12..]) else None
  }

  function AsInt24(w: Word): Option<int>
  {
    if FitsInt24(Signed(w)) then Some(Signed(w)) else None
  }

  function AsUint24(w: Word): Option<nat>
  {
    if FromBE(w) < 0x100_0000 then Some(FromBE(w)) else None
  }

  function AsBool(w: Word): Option<bool>
  {
    if FromBE(w) == 0 then Some(false) else if FromBE(w) == 1 then Some(true) else None
  }

  /**
   bytes: a head word with the offset of the length word, counted from the first argument. The bytes end
   the calldata, zero-padded to a whole word and no further.
   */
  function AsBytes(d: Bytes, offset: nat): (r: Option<Bytes>)
    requires 4 <= |d|
    ensures r.Some? ==> |d| - 4 - offset < 32 + |r.value| + 32
  {
    if 4 + offset + 32 > |d| then None
    else
      var data := 4 + offset + 32;
      var end := data + FromBE(d[4 + offset..data]);
      if end > |d| || |d| >= end + 32 || (|d| - data) % 32 != 0 || NonZero(d[end..]) then None else Some(d[data..end])
  }

  predicate NonZero(b: Bytes)
  {
    exists i :: 0 <= i < |b| && b[i] != 0
  }

  function DecodeKey(d: Bytes): Option<PoolKey>
    requires 4 + 5 * 32 <= |d|
  {
    match (AsAddress(Arg(d, 0)), AsAddress(Arg(d, 1)), AsUint24(Arg(d, 2)), AsInt24(Arg(d, 3)), AsAddress(Arg(d, 4)))
    case (Some(c0), Some(c1), Some(fee), Some(tick), Some(hooks)) => Some(PoolKey(c0, c1, fee, tick, hooks))
    case _ => None
  }

  datatype Swap = Swap(pk: PoolKey, zeroForOne: bool, amountSpecified: int, sqrtPriceLimit: nat, hookData: Bytes)

  function DecodeSwap(d: Bytes): Option<Swap>
  {
    if |d| < 4 + 9 * 32 || FromBE(d[..4]) != SELECTOR_SWAP then None
    else
      match (DecodeKey(d), AsBool(Arg(d, 5)), AsBytes(d, FromBE(Arg(d, 8))))
      case (Some(pk), Some(z), Some(h)) => Some(Swap(pk, z, Signed(Arg(d, 6)), FromBE(Arg(d, 7)), h))
      case _ => None
  }

  datatype Modify = Modify(pk: PoolKey, tickLower: int, tickUpper: int, liquidityDelta: int, salt: Word,
    hookData: Bytes)

  function DecodeModify(d: Bytes): Option<Modify>
  {
    if |d| < 4 + 10 * 32 || FromBE(d[..4]) != SELECTOR_MODIFY then None
    else
      match (DecodeKey(d), AsInt24(Arg(d, 5)), AsInt24(Arg(d, 6)), AsBytes(d, FromBE(Arg(d, 9))))
      case (Some(pk), Some(lo), Some(hi), Some(h)) => Some(Modify(pk, lo, hi, Signed(Arg(d, 7)), Arg(d, 8), h))
      case _ => None
  }

  // ---- decoding what was encoded ----

  lemma {:induction false} FlatAt(words: seq<Word>, i: nat)
    requires i < |words|
    ensures Flat(words)[32 * i..32 * i + 32] == words[i]
  {
    var n := |words| - 1;
    if i < n {
      FlatAt(words[..n], i);
      assert Flat(words)[32 * i..32 * i + 32] == Flat(words[..n])[32 * i..32 * i + 32];
    }
  }

  lemma {:induction false} ArgAt(selector: nat, words: seq<Word>, h: Bytes, i: nat)
    requires i < |words|
    ensures var d := CalldataOf(selector, words, h);
            4 + 32 * i + 32 <= |d| && Arg(d, i) == words[i]
  {
    hide BE, Flat, DynamicBytes;
    FlatAt(words, i);
    var d, f := CalldataOf(selector, words, h), Flat(words);
    assert d[4 + 32 * i..4 + 32 * i + 32] == f[32 * i..32 * i + 32];
  }

  lemma {:induction false} SelectorAt(selector: nat, words: seq<Word>, h: Bytes)
    requires selector < TWO32
    ensures |CalldataOf(selector, words, h)| >= 4 && FromBE(CalldataOf(selector, words, h)[..4]) == selector
  {
    hide BE, Flat, DynamicBytes, FromBE;
    PowFacts();
    BERoundTrip(selector, 4);
    assert CalldataOf(selector, words, h)[..4] == BE(selector, 4);
  }

  lemma {:induction false} BytesAtEnd(selector: nat, words: seq<Word>, h: Bytes)
    requires |h| < TWO64
    ensures 4 <= |CalldataOf(selector, words, h)|
    ensures AsBytes(CalldataOf(selector, words, h), 32 * |words|) == Some(h)
  {
    hide BE, Flat, FromBE, WordU64, PaddedLen;
    U64Value(|h|);
    var (head, pad) := (BE(selector, 4) + Flat(words), Zeros(PaddedLen(|h|) - |h|));
    var d := CalldataOf(selector, words, h);
    assert d == head + (WordU64(|h|) + h + pad);
    MiddleOf(head, WordU64(|h|), h, pad);
    assert !NonZero(pad) by { ZerosAreZero(|pad|); }
    WholeWords(|h|, |pad|);
  }

  lemma {:induction false} ZerosAreZero(n: nat)
    ensures !NonZero(Zeros(n))
  {
  }

  lemma {:induction false} TailZero(d: Bytes, at: nat, n: nat)
    requires at <= |d| && d[at..] == Zeros(n)
    ensures forall i :: at <= i < |d| ==> d[i] == 0
  {
    assert forall i :: at <= i < |d| ==> d[i] == d[at..][i - at];
  }

  lemma {:induction false} WholeWords(n: nat, pad: nat)
    requires n + pad == PaddedLen(n)
    ensures (n + pad) % 32 == 0 && pad < 32
  {
  }

  /**
   Whole words after the selector, the hook data behind its length word, and zeros up to the next word
   boundary: n head words and the least number of words that hold the hook data.
   */
  lemma {:induction false} CalldataShape(selector: nat, words: seq<Word>, h: Bytes)
    ensures var (d, data) := (CalldataOf(selector, words, h), 4 + 32 * |words| + 32);
      && (|d| - 4) % 32 == 0 && data + |h| <= |d| < data + |h| + 32
      && d[data..data + |h|] == h && forall i :: data + |h| <= i < |d| ==> d[i] == 0
  {
    hide BE, Flat, WordU64, PaddedLen;
    var (d, data) := (CalldataOf(selector, words, h), 4 + 32 * |words| + 32);
    var (head, pad) := (BE(selector, 4) + Flat(words), Zeros(PaddedLen(|h|) - |h|));
    assert d == head + (WordU64(|h| % TWO64) + h + pad);
    MiddleOf(head, WordU64(|h| % TWO64), h, pad);
    TailZero(d, data + |h|, |pad|);
    WholeWords(|h|, |pad|);
  }

  lemma {:induction false} MiddleOf(a: Bytes, b: Bytes, c: Bytes, e: Bytes)
    ensures var d := a + (b + c + e);
      d[|a|..|a| + |b|] == b && d[|a| + |b|..|a| + |b| + |c|] == c && d[|a| + |b| + |c|..] == e
  {
  }

  lemma {:induction false} SignedWord(x: int)
    requires -TWO64 < x < TWO64
    ensures Signed(WordOf(x)) == x
  {
    hide Pow256, FromBE, BE, WordOf;
    HalfModulus();
    if x >= 0 {
      SmallMod(x, Modulus());
    } else {
      ModNeg(-x, Modulus());
    }
  }

  lemma {:induction false} HalfModulus()
    ensures TWO64 < Modulus() / 2
  {
    hide Pow256;
    PowFacts();
    PowAdd(9, 23);
    PowSucc(8);
    MulAtLeast(Pow256(9), Pow256(23));
  }

  lemma {:induction false} KeyDecodes(d: Bytes, pk: PoolKey)
    requires ValidKey(pk) && 4 + 5 * 32 <= |d|
    requires forall i :: 0 <= i < 5 ==> Arg(d, i) == KeyWords(pk)[i]
    ensures DecodeKey(d) == if FitsInt24(pk.tickSpacing) then Some(pk.(fee := pk.fee % 0x100_0000)) else None
  {
    hide Pow256, FromBE, BE, WordOf, Signed, WordU24;
    var ws := KeyWords(pk);
    assert Arg(d, 0) == ws[0] && Arg(d, 1) == ws[1] && Arg(d, 2) == ws[2] && Arg(d, 3) == ws[3] && Arg(d, 4) == ws[4];
    AddressDecodes(pk.currency0);
    AddressDecodes(pk.currency1);
    AddressDecodes(pk.hooks);
    WordU24Value(pk.fee);
    WordValue(pk.fee % 0x100_0000);
    SignedWord(pk.tickSpacing);
  }

  lemma {:induction false} AddressDecodes(a: Bytes)
    requires |a| == 20
    ensures AsAddress(WordAddr(a)) == Some(a)
  {
    assert WordAddr(a)[..12] == Zeros(12) && WordAddr(a)[12..] == a;
  }

  /**
   Swap calldata decodes back to its arguments, for every input: the amount is the negated input
   amount (exact input), the fee its low 24 bits, and a tick spacing outside int24 is the one
   thing a strict decoder refuses.
   */
  lemma {:induction false} SwapRoundTrip(pk: PoolKey, zeroForOne: bool, amountIn: int, h: Bytes)
    requires ValidKey(pk) && 0 <= amountIn < TWO64 && |h| < TWO64
    ensures DecodeSwap(CalldataOf(SELECTOR_SWAP, SwapWords(pk, zeroForOne, amountIn), h)) ==
            if FitsInt24(pk.tickSpacing)
            then Some(Swap(pk.(fee := pk.fee % 0x100_0000), zeroForOne, -amountIn, 0, h)) else None
  {
    hide Pow256, FromBE, BE, WordOf, Signed, Flat, DynamicBytes, CalldataOf, DecodeKey, AsBytes, WordU64, WordBool;
    var ws := SwapWords(pk, zeroForOne, amountIn);
    var d := CalldataOf(SELECTOR_SWAP, ws, h);
    SelectorAt(SELECTOR_SWAP, ws, h);
    forall i | 0 <= i < 9
      ensures 4 + 32 * i + 32 <= |d| && Arg(d, i) == ws[i]
    {
      ArgAt(SELECTOR_SWAP, ws, h, i);
    }
    forall i | 0 <= i < 5 ensures Arg(d, i) == KeyWords(pk)[i] {
      assert ws[i] == KeyWords(pk)[i];
    }
    assert 4 + 32 * 8 + 32 <= |d| && Arg(d, 8) == ws[8];
    KeyDecodes(d, pk);
    WordBoolValue(zeroForOne);
    WordValue(if zeroForOne then 1 else 0);
    SignedWord(-amountIn);
    U64Value(9 * 32);
    FromBEZeros(32);
    BytesAtEnd(SELECTOR_SWAP, ws, h);
    assert Arg(d, 5) == ws[5] && Arg(d, 6) == ws[6] && Arg(d, 7) == ws[7] && Arg(d, 8) == ws[8];
  }

  lemma {:induction false} ModifyRoundTrip(pk: PoolKey, lower: int, upper: int, delta: int, salt: Word, h: Bytes)
    requires ValidKey(pk) && |h| < TWO64
    requires -TWO31 <= lower < TWO31 && -TWO31 <= upper < TWO31 && -TWO63 <= delta < TWO63
    ensures DecodeModify(CalldataOf(SELECTOR_MODIFY, ModifyWords(pk, lower, upper, delta, salt), h)) ==
            if FitsInt24(pk.tickSpacing) && FitsInt24(lower) && FitsInt24(upper)
            then Some(Modify(pk.(fee := pk.fee % 0x100_0000), lower, upper, delta, salt, h)) else None
  {
    hide Pow256, FromBE, BE, WordOf, Signed, Flat, DynamicBytes, CalldataOf, DecodeKey, AsBytes, WordU64;
    var ws := ModifyWords(pk, lower, upper, delta, salt);
    var d := CalldataOf(SELECTOR_MODIFY, ws, h);
    SelectorAt(SELECTOR_MODIFY, ws, h);
    forall i | 0 <= i < 10
      ensures 4 + 32 * i + 32 <= |d| && Arg(d, i) == ws[i]
    {
      ArgAt(SELECTOR_MODIFY, ws, h, i);
    }
    forall i | 0 <= i < 5 ensures Arg(d, i) == KeyWords(pk)[i] {
      assert ws[i] == KeyWords(pk)[i];
    }
    assert 4 + 32 * 9 + 32 <= |d| && Arg(d, 9) == ws[9];
    KeyDecodes(d, pk);
    SignedWord(lower);
    SignedWord(upper);
    SignedWord(delta);
    U64Value(10 * 32);
    BytesAtEnd(SELECTOR_MODIFY, ws, h);
    assert Arg(d, 5) == ws[5] && Arg(d, 6) == ws[6] && Arg(d, 7) == ws[7] && Arg(d, 8) == ws[8] && Arg(d, 9) == ws[9];
  }

  /** Exactly when the swap calldata decodes to its inputs: tick spacing and fee fit their 24 bits. */
  lemma {:induction false} SwapDecodesExactly(pk: PoolKey, zeroForOne: bool, amountIn: int, h: Bytes)
    requires ValidKey(pk) && 0 <= amountIn < TWO64 && |h| < TWO64
    ensures var decoded := DecodeSwap(CalldataOf(SELECTOR_SWAP, SwapWords(pk, zeroForOne, amountIn), h));
      decoded == Some(Swap(pk, zeroForOne, -amountIn, 0, h)) <==> FitsInt24(pk.tickSpacing) && pk.fee < 0x100_0000
  {
    hide DecodeSwap, CalldataOf, SwapWords;
    SwapRoundTrip(pk, zeroForOne, amountIn, h);
  }

  /** The same for modifyLiquidity, where both ticks must fit too. */
  lemma {:induction false} ModifyDecodesExactly(pk: PoolKey, lower: int, upper: int, delta: int, salt: Word, h: Bytes)
    requires ValidKey(pk) && |h| < TWO64
    requires -TWO31 <= lower < TWO31 && -TWO31 <= upper < TWO31 && -TWO63 <= delta < TWO63
    ensures var decoded := DecodeModify(CalldataOf(SELECTOR_MODIFY, ModifyWords(pk, lower, upper, delta, salt), h));
      decoded == Some(Modify(pk, lower, upper, delta, salt, h)) <==>
        FitsInt24(pk.tickSpacing) && FitsInt24(lower) && FitsInt24(upper) && pk.fee < 0x100_0000
  {
    hide DecodeModify, CalldataOf, ModifyWords;
    ModifyRoundTrip(pk, lower, upper, delta, salt, h);
  }
}
