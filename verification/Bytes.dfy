/** Byte strings and the fixed-width integer encodings the wire formats use. */
module ByteStrings {

  type byte = b: int | 0 <= b < 256

  type Bytes = seq<byte>

  datatype Option<+T> = None | Some(value: T)

  /** 256^n: the number of values n bytes can hold. */
  function Pow256(n: nat): (p: nat)
    ensures p > 0
  {
    if n == 0 then 1 else 256 * Pow256(n - 1)
  }

  const TWO31: int := 0x8000_0000
  const TWO32: int := 0x1_0000_0000
  const TWO63: int := 0x8000_0000_0000_0000
  const TWO64: int := 0x1_0000_0000_0000_0000

  lemma PowFacts()
    ensures Pow256(1) == 256
    ensures Pow256(2) == 0x1_0000
    ensures Pow256(4) == TWO32
    ensures Pow256(8) == TWO64
  {
    assert Pow256(2) == 256 * Pow256(1);
    assert Pow256(3) == 256 * Pow256(2);
    assert Pow256(4) == 256 * Pow256(3);
    assert Pow256(5) == 256 * Pow256(4);
    assert Pow256(6) == 256 * Pow256(5);
    assert Pow256(7) == 256 * Pow256(6);
  }

  /** Quotient and remainder are the only ones there are. */
  lemma {:induction false} DivUnique(v: nat, n: nat, q: nat, r: nat)
    requires r < n && v == n * q + r
    ensures v / n == q && v % n == r
  {
    var x, y := v / n, v % n;
    assert v == n * x + y;
    if x < q {
      MulGap(n, x, q);
    } else if q < x {
      MulGap(n, q, x);
    }
  }

  lemma {:induction false} MulGap(n: nat, a: nat, b: nat)
    requires a < b
    ensures n * a + n <= n * b
  {
    MulAtLeast(n, b - a);
    assert n * b == n * a + n * (b - a);
  }

  /** A number, byte by byte. */
  lemma {:induction false} ByteDigits(v: nat)
    ensures v == v % 256 + 0x100 * (v / 0x100 % 256) + 0x1_0000 * (v / 0x1_0000 % 256) + 0x100_0000 * (v / 0x100_0000)
  {
    var x := v / 0x100;
    var y := x / 0x100;
    var z := y / 0x100;
    DivUnique(v, 0x1_0000, y, 0x100 * (x % 0x100) + v % 0x100);
    DivUnique(v, 0x100_0000, z, 0x1_0000 * (y % 0x100) + 0x100 * (x % 0x100) + v % 0x100);
  }

  /** Go's 64-bit int arithmetic. */
  function Wrap64(x: int): (r: int)
    ensures -TWO63 <= r < TWO63
  {
    (x + TWO63) % TWO64 - TWO63
  }

  lemma {:induction false} Wrap64Exact(x: int)
    requires -TWO63 <= x < TWO63
    ensures Wrap64(x) == x
  {
  }

  lemma {:induction false} ModUnique(x: int, q: int, r: int)
    requires x == q * TWO64 + r && 0 <= r < TWO64
    ensures x % TWO64 == r
  {
    var q', r' := x / TWO64, x % TWO64;
    assert (q - q') * TWO64 == r' - r;
  }

  lemma {:induction false} WrapShift(x: int, k: int)
    ensures Wrap64(x - k * TWO64) == Wrap64(x)
  {
    var a, q := x + TWO63, (x + TWO63) / TWO64;
    assert a == q * TWO64 + a % TWO64;
    assert a - k * TWO64 == (q - k) * TWO64 + a % TWO64;
    ModUnique(a - k * TWO64, q - k, a % TWO64);
  }

  /** n zero bytes. */
  function Zeros(n: nat): (z: Bytes)
    ensures |z| == n && forall i :: 0 <= i < n ==> z[i] == 0
  {
    seq(n, _ => 0)
  }

  /** The low n bytes of v, least significant first. */
  function LE(v: nat, n: nat): (r: Bytes)
    ensures |r| == n
  {
    if n == 0 then [] else [v % 256] + LE(v / 256, n - 1)
  }

  function FromLE(s: Bytes): (v: nat)
    ensures v < Pow256(|s|)
  {
    if s == [] then 0 else s[0] + 256 * FromLE(s[1..])
  }

  lemma {:induction false} LERoundTrip(v: nat, n: nat)
    requires v < Pow256(n)
    ensures FromLE(LE(v, n)) == v
  {
    if n > 0 {
      LERoundTrip(v / 256, n - 1);
      assert LE(v, n)[1..] == LE(v / 256, n - 1);
    }
  }

  lemma {:induction false} FromLERoundTrip(s: Bytes)
    ensures LE(FromLE(s), |s|) == s
  {
    if s != [] {
      FromLERoundTrip(s[1..]);
      var v := FromLE(s);
      assert v % 256 == s[0] && v / 256 == FromLE(s[1..]);
    }
  }

  lemma {:induction false} FromLEZero(s: Bytes)
    ensures FromLE(s) == 0 <==> s == Zeros(|s|)
  {
    if s != [] {
      FromLEZero(s[1..]);
      if FromLE(s) == 0 {
        assert s == [s[0]] + s[1..];
      }
      if s == Zeros(|s|) {
        assert s[1..] == Zeros(|s| - 1);
      }
    }
  }

  /** The low n bytes of v, most significant first. */
  function BE(v: nat, n: nat): (r: Bytes)
    ensures |r| == n
  {
    if n == 0 then [] else BE(v / 256, n - 1) + [v % 256]
  }

  function FromBE(s: Bytes): (v: nat)
    ensures v < Pow256(|s|)
  {
    if s == [] then 0 else 256 * FromBE(s[..|s| - 1]) + s[|s| - 1]
  }

  lemma {:induction false} BERoundTrip(v: nat, n: nat)
    requires v < Pow256(n)
    ensures FromBE(BE(v, n)) == v
  {
    if n > 0 {
      BERoundTrip(v / 256, n - 1);
      assert BE(v, n)[..n - 1] == BE(v / 256, n - 1);
    }
  }

  lemma {:induction false} FromBERoundTrip(s: Bytes)
    ensures BE(FromBE(s), |s|) == s
  {
    if s != [] {
      FromBERoundTrip(s[..|s| - 1]);
      var v := FromBE(s);
      assert v % 256 == s[|s| - 1] && v / 256 == FromBE(s[..|s| - 1]);
    }
  }

  /** Two big-endian values of the same width with equal bytes are equal. */
  lemma BEInjective(v: nat, w: nat, n: nat)
    requires v < Pow256(n) && w < Pow256(n)
    requires BE(v, n) == BE(w, n)
    ensures v == w
  {
    BERoundTrip(v, n);
    BERoundTrip(w, n);
  }

  lemma {:induction false} MulAtLeast(a: nat, k: nat)
    requires k > 0
    ensures a <= a * k
  {
    assert a * k == a + a * (k - 1);
  }

  /** Splitting two equal concatenations whose first parts have the same length. */
  lemma SplitEqual(a: Bytes, b: Bytes, c: Bytes, d: Bytes)
    requires |a| == |c| && a + b == c + d
    ensures a == c && b == d
  {
    assert a == (a + b)[..|a|] && c == (c + d)[..|c|];
    assert b == (a + b)[|a|..] && d == (c + d)[|c|..];
  }

  /** s with the bytes of d written over it from position at. */
  function Put(s: Bytes, at: nat, d: Bytes): (r: Bytes)
    requires at + |d| <= |s|
    ensures |r| == |s|
    ensures forall i :: 0 <= i < |s| ==> r[i] == if at <= i < at + |d| then d[i - at] else s[i]
  {
    s[..at] + d + s[at + |d|..]
  }

  lemma PutSlice(s: Bytes, at: nat, d: Bytes)
    requires at + |d| <= |s|
    ensures Put(s, at, d)[at..at + |d|] == d
  {
  }
}
