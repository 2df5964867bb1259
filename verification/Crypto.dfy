/**
 The cryptographic primitives, as functions the protocol is given.

 Nothing is assumed of them beyond what a theorem's own requires clauses say, and those speak of
 the inputs of the runs at hand: a 32-byte hash cannot be injective, but the inputs of two given
 runs can be free of collisions.
 */
module Primitives {
  import opened ByteStrings

  datatype Crypto = Crypto(
    hash: Bytes -> Bytes,                                 // SHA3-256
    extract: (Bytes, Bytes) -> Bytes,                     // HKDF-Extract(ikm, salt)
    expand: (Bytes, Bytes, nat) -> Bytes,                 // HKDF-Expand(prk, info, length)
    dhPub: Bytes -> Bytes,                                // X25519 public key of a secret
    dh: (Bytes, Bytes) -> Option<Bytes>,                  // X25519(secret, public)
    kemPub: Bytes -> Bytes,                               // ML-KEM-768 public key of a secret
    kemPkOk: Bytes -> bool,                               // does it decode as a public key
    encap: (Bytes, Bytes) -> Option<(Bytes, Bytes)>,      // (public, coins) to (ciphertext, shared)
    decap: (Bytes, Bytes) -> Option<Bytes>,               // (secret, ciphertext) to shared
    sigPub: Bytes -> Bytes,                               // ML-DSA-65 public key of a secret
    sigPkOk: Bytes -> bool,                               // does it decode as a public key
    sign: (Bytes, Bytes, Bytes) -> Bytes,                 // (secret, message, coins)
    verify: (Bytes, Bytes, Bytes) -> bool,                // (public, message, signature)
    seal: (Bytes, Bytes, Bytes, Bytes) -> Bytes,          // AES-256-GCM(key, nonce, aad, plaintext)
    open: (Bytes, Bytes, Bytes, Bytes) -> Option<Bytes>   // (key, nonce, aad, ciphertext)
  )

  /** Opening undoes sealing, and the tag is 16 bytes. */
  ghost predicate AeadCorrect(c: Crypto)
  {
    forall k, n, a, p ::
      |c.seal(k, n, a, p)| == |p| + 16 && c.open(k, n, a, c.seal(k, n, a, p)) == Some(p)
  }

  /** The two ends of an X25519 exchange, and of an encapsulation, agree. */
  ghost predicate ExchangeCorrect(c: Crypto)
  {
    && (forall x, y :: c.dh(x, c.dhPub(y)) == c.dh(y, c.dhPub(x)))
    && (forall sk, coins :: c.encap(c.kemPub(sk), coins).Some? ==>
          c.decap(sk, c.encap(c.kemPub(sk), coins).value.0) == Some(c.encap(c.kemPub(sk), coins).value.1))
  }

  ghost predicate OutputLengths(c: Crypto)
  {
    && (forall x :: |c.hash(x)| == 32)
    && (forall k, i, n :: |c.expand(k, i, n)| == n)
    && (forall x :: |c.dhPub(x)| == 32)
    && (forall x :: |c.kemPub(x)| == 1184)
    && (forall x :: |c.sigPub(x)| == 1952)
    && (forall k, m, r :: |c.sign(k, m, r)| == 3309)
  }

  /** Signing and then verifying succeeds, and a key pair's public key decodes. */
  ghost predicate SignCorrect(c: Crypto)
  {
    forall sk, m, r :: c.sigPkOk(c.sigPub(sk)) && c.verify(c.sigPub(sk), m, c.sign(sk, m, r))
  }

  /** No two different members of xs hash alike. */
  ghost predicate CollisionFree(c: Crypto, xs: set<Bytes>)
  {
    forall x, y :: x in xs && y in xs && c.hash(x) == c.hash(y) ==> x == y
  }

  /** What is asked of the primitives can be had all at once. */
  lemma {:induction false} RequirementsConsistent()
    ensures exists c: Crypto :: AeadCorrect(c) && ExchangeCorrect(c) && OutputLengths(c) && SignCorrect(c)
  {
    var z := (n: nat) => Zeros(n);
    var c := Crypto(
      _ => z(32), (_, _) => z(32), (_, _, n) => z(n), _ => z(32), (_, _) => Some(z(32)),
      _ => z(1184), _ => true, (_, _) => Some((z(1088), z(32))), (_, _) => Some(z(32)), _ => z(1952), _ => true,
      (_, _, _) => z(3309), (_, _, _) => true, (_, _, _, p) => p + z(16),
      (_, _, _, ct: Bytes) => if |ct| >= 16 then Some(ct[..|ct| - 16]) else None);
    forall k, n, a, p
      ensures |c.seal(k, n, a, p)| == |p| + 16 && c.open(k, n, a, c.seal(k, n, a, p)) == Some(p)
    {
      var ct: Bytes := p + Zeros(16);
      assert ct[..|ct| - 16] == p;
    }
    assert AeadCorrect(c) && ExchangeCorrect(c) && OutputLengths(c) && SignCorrect(c);
  }

  // ---- labels ----

  const LBL_PROTOCOL: Bytes := Ascii("ZAP-PQ-v1")
  const LBL_X25519: Bytes := Ascii("X25519")
  const LBL_MLKEM: Bytes := Ascii("ML-KEM-768")
  const LBL_I2R: Bytes := Ascii("ZAP-PQ-v1 i->r")
  const LBL_R2I: Bytes := Ascii("ZAP-PQ-v1 r->i")
  const LBL_SALT_I2R: Bytes := Ascii("ZAP-PQ-v1 nonce-salt i->r")
  const LBL_SALT_R2I: Bytes := Ascii("ZAP-PQ-v1 nonce-salt r->i")
  const LBL_RESUMPTION: Bytes := Ascii("ZAP-PQ-v1 resumption")
  const LBL_REKEY: Bytes := Ascii("ZAP-PQ-v1 rekey")
  const LBL_AUTH_I: Bytes := Ascii("ZAP-PQ-v1 auth initiator")
  const LBL_AUTH_R: Bytes := Ascii("ZAP-PQ-v1 auth responder")

  function Ascii(s: string): (r: Bytes)
    ensures |r| == |s|
  {
    seq(|s|, i requires 0 <= i < |s| => (s[i] as int) % 256)
  }

  const ROLE_I: byte := 0x49
  const ROLE_R: byte := 0x52

  // ---- key schedule (sections 2.2 and 2.3 of RFC 5869 are extract and expand) ----

  datatype SessionKeys = SessionKeys(kI2R: Bytes, kR2I: Bytes, saltI2R: Bytes, saltR2I: Bytes, psk: Bytes)

  function Labelled(lbl: Bytes, secret: Bytes): Bytes
  {
    [|lbl| % 256] + lbl + [|secret| % 256] + secret
  }

  function ExpandAll(c: Crypto, prk: Bytes): SessionKeys
  {
    SessionKeys(c.expand(prk, LBL_I2R, 32), c.expand(prk, LBL_R2I, 32),
                c.expand(prk, LBL_SALT_I2R, 4), c.expand(prk, LBL_SALT_R2I, 4),
                c.expand(prk, LBL_RESUMPTION, 32))
  }

  /** The input keying material: the X25519 secret, then the second secret under its own label. */
  function Ikm(xShared: Bytes, lbl: Bytes, secret: Bytes): Bytes
  {
    Labelled(LBL_X25519, xShared) + Labelled(lbl, secret)
  }

  function DeriveSession(c: Crypto, h2: Bytes, xShared: Bytes, kemShared: Bytes): SessionKeys
  {
    ExpandAll(c, c.extract(Ikm(xShared, LBL_MLKEM, kemShared), h2))
  }

  function DeriveResumed(c: Crypto, h2psk: Bytes, xShared: Bytes, psk: Bytes): SessionKeys
  {
    ExpandAll(c, c.extract(Ikm(xShared, LBL_RESUMPTION, psk), h2psk))
  }

  /**
   The keying material determines its secrets and its kind: no full handshake's material is ever that
   of a resumption, whatever the secrets.
   */
  lemma {:induction false} IkmInjective(x: Bytes, l: Bytes, a: Bytes, y: Bytes, m: Bytes, b: Bytes)
    requires |x| == 32 && |y| == 32 && |a| == 32 && |b| == 32
    requires l in {LBL_MLKEM, LBL_RESUMPTION} && m in {LBL_MLKEM, LBL_RESUMPTION}
    requires Ikm(x, l, a) == Ikm(y, m, b)
    ensures x == y && l == m && a == b
  {
    SplitEqual(Labelled(LBL_X25519, x), Labelled(l, a), Labelled(LBL_X25519, y), Labelled(m, b));
    LabelledInjective(LBL_X25519, x, LBL_X25519, y);
    LabelledInjective(l, a, m, b);
  }

  lemma {:induction false} LabelledInjective(l: Bytes, a: Bytes, m: Bytes, b: Bytes)
    requires |l| < 256 && |m| < 256 && Labelled(l, a) == Labelled(m, b)
    ensures l == m && a == b
  {
    assert Labelled(l, a)[0] == |l| && Labelled(m, b)[0] == |m|;
    SplitEqual([|l| % 256] + l + [|a| % 256], a, [|m| % 256] + m + [|b| % 256], b);
    SplitEqual([|l| % 256] + l, [|a| % 256], [|m| % 256] + m, [|b| % 256]);
    SplitEqual([|l| % 256], l, [|m| % 256], m);
  }

  /** The five outputs of a handshake are expanded under five different labels. */
  lemma {:induction false} ExpandLabelsDistinct()
    ensures LBL_I2R != LBL_R2I && LBL_SALT_I2R != LBL_SALT_R2I
    ensures LBL_I2R !in {LBL_SALT_I2R, LBL_SALT_R2I, LBL_RESUMPTION}
    ensures LBL_R2I !in {LBL_SALT_I2R, LBL_SALT_R2I, LBL_RESUMPTION}
    ensures LBL_RESUMPTION !in {LBL_SALT_I2R, LBL_SALT_R2I}
  {
    assert LBL_I2R[10] == 'i' as int % 256 && LBL_R2I[10] == 'r' as int % 256;
    assert LBL_SALT_I2R[21] == 'i' as int % 256 && LBL_SALT_R2I[21] == 'r' as int % 256;
    assert |LBL_I2R| == 14 && |LBL_SALT_I2R| == 25 && |LBL_RESUMPTION| == 20;
  }

  /** The next key and nonce salt of one direction. */
  function Ratchet(c: Crypto, key: Bytes, epoch: byte): (Bytes, Bytes)
  {
    (c.expand(key, RatchetInfo(epoch, 0), 32), c.expand(key, RatchetInfo(epoch, 1), 4))
  }

  function RatchetInfo(epoch: byte, output: byte): Bytes
  {
    LBL_REKEY + [0, epoch, output]
  }

  /** Every step of a ratchet, and each of its two outputs, has an info string of its own. */
  lemma {:induction false} RatchetInfosDistinct(e: byte, o: byte, f: byte, p: byte)
    requires RatchetInfo(e, o) == RatchetInfo(f, p)
    ensures e == f && o == p
  {
    SplitEqual(LBL_REKEY, [0, e, o], LBL_REKEY, [0, f, p]);
    assert [0, e, o][1] == [0, f, p][1] && [0, e, o][2] == [0, f, p][2];
  }

  function PskId(c: Crypto, psk: Bytes): Bytes
  {
    var h := c.hash(psk);
    if |h| < 16 then h else h[..16]
  }

  // ---- what session keys are bound to ----

  /** Where session keys come from: a full exchange or a resumption, its digest and its two secrets. */
  datatype Origin = Full(h: Bytes, x: Bytes, secret: Bytes) | Resumed(h: Bytes, x: Bytes, secret: Bytes)

  function KeysFrom(c: Crypto, o: Origin): SessionKeys
  {
    match o
    case Full(h, x, ss) => DeriveSession(c, h, x, ss)
    case Resumed(h, x, psk) => DeriveResumed(c, h, x, psk)
  }

  function Prk(c: Crypto, o: Origin): Bytes
  {
    c.extract(Ikm(o.x, if o.Full? then LBL_MLKEM else LBL_RESUMPTION, o.secret), o.h)
  }

  const LABELS: set<Bytes> := {LBL_I2R, LBL_R2I, LBL_SALT_I2R, LBL_SALT_R2I, LBL_RESUMPTION}

  /** Extraction and expansion tell these two origins apart, if they can be told apart. */
  ghost predicate DerivesApart(c: Crypto, o: Origin, q: Origin)
  {
    && (Prk(c, o) == Prk(c, q) ==>
          o.h == q.h && Ikm(o.x, if o.Full? then LBL_MLKEM else LBL_RESUMPTION, o.secret)
                          == Ikm(q.x, if q.Full? then LBL_MLKEM else LBL_RESUMPTION, q.secret))
    && (forall l, m :: l in LABELS && m in LABELS && c.expand(Prk(c, o), l, 32) == c.expand(Prk(c, q), m, 32) ==>
          Prk(c, o) == Prk(c, q) && l == m)
  }

  /**
   Keys are bound to everything they come from: any traffic key or resumption key of one origin that is
   one of another has the same kind, digest, X25519 secret and KEM or resumption secret, and is the same
   one of its keys.
   */
  lemma {:induction false} KeysBind(c: Crypto, o: Origin, q: Origin)
    requires |o.x| == 32 && |q.x| == 32 && |o.secret| == 32 && |q.secret| == 32 && DerivesApart(c, o, q)
    ensures var (k, j) := (KeysFrom(c, o), KeysFrom(c, q));
      && (k.kI2R == j.kI2R || k.kR2I == j.kR2I || k.psk == j.psk ==> o == q)
      && k.kI2R != j.kR2I && k.kI2R != j.psk && k.kR2I != j.psk
  {
    hide Ikm;
    ExpandLabelsDistinct();
    var (l, m) := (if o.Full? then LBL_MLKEM else LBL_RESUMPTION, if q.Full? then LBL_MLKEM else LBL_RESUMPTION);
    if Prk(c, o) == Prk(c, q) {
      IkmInjective(o.x, l, o.secret, q.x, m, q.secret);
      KindsDiffer();
    }
  }

  /** Expanding under these strings tells them apart in the first four bytes, whatever the length. */
  ghost predicate PrefixesApart(c: Crypto, key: Bytes, infos: set<Bytes>)
    requires OutputLengths(c)
  {
    forall l, m, n: nat, k: nat ::
      l in infos && m in infos && n >= 4 && k >= 4 && c.expand(key, l, n)[..4] == c.expand(key, m, k)[..4] ==> l == m
  }

  /** The five outputs of a handshake are five different ones: no salt is part of a key. */
  lemma {:induction false} OutputsApart(c: Crypto, o: Origin)
    requires OutputLengths(c) && PrefixesApart(c, Prk(c, o), LABELS)
    ensures var k := KeysFrom(c, o);
      var heads := [k.kI2R[..4], k.kR2I[..4], k.psk[..4], k.saltI2R, k.saltR2I];
      forall i, j :: 0 <= i < j < 5 ==> heads[i] != heads[j]
  {
    hide Ikm;
    ExpandLabelsDistinct();
    var k := KeysFrom(c, o);
    assert k.saltI2R[..4] == k.saltI2R && k.saltR2I[..4] == k.saltR2I;
  }

  /** So are the two outputs of a ratchet step, and those of different steps. */
  lemma {:induction false} RatchetApart(c: Crypto, key: Bytes, e: byte, f: byte)
    requires OutputLengths(c)
    requires PrefixesApart(c, key, {RatchetInfo(e, 0), RatchetInfo(e, 1), RatchetInfo(f, 0), RatchetInfo(f, 1)})
    ensures Ratchet(c, key, e).0[..4] != Ratchet(c, key, f).1
    ensures e != f ==> Ratchet(c, key, e).0 != Ratchet(c, key, f).0 && Ratchet(c, key, e).1 != Ratchet(c, key, f).1
  {
    hide RatchetInfo;
    var (a, b) := (Ratchet(c, key, e), Ratchet(c, key, f));
    assert a.1[..4] == a.1 && b.1[..4] == b.1;
    if RatchetInfo(e, 0) == RatchetInfo(f, 1) { RatchetInfosDistinct(e, 0, f, 1); }
    if RatchetInfo(e, 0) == RatchetInfo(f, 0) { RatchetInfosDistinct(e, 0, f, 0); }
    if RatchetInfo(e, 1) == RatchetInfo(f, 1) { RatchetInfosDistinct(e, 1, f, 1); }
  }

  lemma {:induction false} KindsDiffer()
    ensures LBL_MLKEM != LBL_RESUMPTION
  {
    assert |LBL_MLKEM| == 10 && |LBL_RESUMPTION| == 20;
  }
}
