/** Where each value stands on the wire, byte by byte. */
module Layouts {
  import opened ByteStrings
  import opened Frames
  import opened Primitives
  import opened Transcripts
  import opened WireSpec
  import Handshake
  import Rpc

  /** HELLO: suite, mode, random, timestamp, id, the number of schemes, schemes, key; integers big-endian. */
  lemma {:induction false} HelloBytes(h: Hello, b: Bytes)
    requires HelloShape(h) && EncodeHello(h) == Some(b) && |h.schemes| < TWO32
    ensures var n := |h.schemes|;
      && |b| == 62 + n + 1952 && b[0] == h.suite && b[1] == h.pqMode && b[2..18] == h.random
      && FromBE(b[18..26]) == h.timestamp && b[26..58] == h.clientId && FromBE(b[58..62]) == n
      && b[62..62 + n] == h.schemes && b[62 + n..] == h.staticPk
  {
    hide BE, FromBE;
    PowFacts();
    BERoundTrip(h.timestamp, 8);
    BERoundTrip(|h.schemes|, 4);
    assert b[18..26] == BE(h.timestamp, 8) && b[58..62] == BE(|h.schemes|, 4);
  }

  /** HELLO_PSK: suite, mode, random, timestamp, key id, X25519 share. */
  lemma {:induction false} HelloPskBytes(h: HelloPsk)
    requires HelloPskShape(h)
    ensures var b := EncodeHelloPsk(h);
      && |b| == 74 && b[0] == h.suite && b[1] == h.pqMode && b[2..18] == h.random
      && FromBE(b[18..26]) == h.timestamp && b[26..42] == h.pskId && b[42..] == h.x
  {
    hide BE, FromBE;
    PowFacts();
    BERoundTrip(h.timestamp, 8);
    assert EncodeHelloPsk(h)[18..26] == BE(h.timestamp, 8);
  }

  /** KEM_INIT and KEM_REPLY: the X25519 share first; AUTH: the role, then the signature. */
  lemma {:induction false} ExchangeBytes(k: KemInit, r: KemReply, a: Auth, reply: Bytes, auth: Bytes)
    requires KemInitShape(k) && KemReplyShape(r) && EncodeKemReply(r) == Some(reply) && EncodeAuth(a) == Some(auth)
    ensures |EncodeKemInit(k)| == 1216 && EncodeKemInit(k)[..32] == k.x && EncodeKemInit(k)[32..] == k.kem
    ensures |reply| == 3072 && reply[..32] == r.x && reply[32..1120] == r.ct && reply[1120..] == r.staticPk
    ensures |auth| == 3310 && auth[0] == a.role && auth[1..] == a.signature
  {
  }

  /** DATA: counter, length, ciphertext; ALERT: code, length, detail; an envelope: type, length, body. */
  lemma {:induction false} RecordBytes(d: Data, a: Alert, f: Frame)
    requires d.counter < TWO64 && |d.ct| < TWO32 && |a.detail| < TWO32 && |f.body| < TWO32
    ensures var b := EncodeData(d);
      |b| >= 12 && FromBE(b[..8]) == d.counter && FromBE(b[8..12]) == |d.ct| && b[12..] == d.ct
    ensures var b := EncodeAlert(a); |b| >= 5 && b[0] == a.code && FromBE(b[1..5]) == |a.detail| && b[5..] == a.detail
    ensures var b := Envelope(f); b[0] == f.typ && FromBE(b[1..5]) == |f.body| && b[5..] == f.body
  {
    hide BE, FromBE;
    PowFacts();
    BERoundTrip(d.counter, 8);
    BERoundTrip(|d.ct|, 4);
    BERoundTrip(|a.detail|, 4);
    BERoundTrip(|f.body|, 4);
    assert EncodeData(d)[..8] == BE(d.counter, 8) && EncodeData(d)[8..12] == BE(|d.ct|, 4);
    assert EncodeAlert(a)[1..5] == BE(|a.detail|, 4) && Envelope(f)[1..5] == BE(|f.body|, 4);
  }

  /** What is hashed first, and what is signed: the protocol's name, suite and zeros, then the rest. */
  lemma {:induction false} HashedBytes(suite: byte, hello: Bytes, h2: Bytes, role: byte)
    ensures var b := HelloInput(suite, hello);
      b[..9] == Ascii("ZAP-PQ-v1") && b[9] == 0 && b[10] == suite && b[11..] == hello
    ensures var b := SignInput(h2, role, suite);
      && b[..9] == Ascii("ZAP-PQ-v1") && b[9] == 0 && b[10] == suite && b[11] == 0 && b[12..12 + |h2|] == h2
      && b[12 + |h2|..] == Ascii(if role == 0x49 then "ZAP-PQ-v1 auth initiator" else "ZAP-PQ-v1 auth responder")
  {
    hide Ascii;
  }

  /** What a handshake and what a message begins with. */
  lemma {:induction false} MagicBytes()
    ensures Handshake.MAGIC == Ascii("ZPQ1") && MAGIC == Ascii("ZAP") + [0]
  {
  }

  /** A message's header: magic, version, flags, root offset and size, little-endian. */
  lemma {:induction false} HeaderBytes(s: Bytes, root: nat)
    requires HEADER <= |s| < TWO31 && root < TWO31
    ensures var d := FinishS(s, root);
      && d[..8] == s[..8] && d[16..] == s[16..]
      && d[8] as int + 0x100 * d[9] as int + 0x1_0000 * d[10] as int + 0x100_0000 * d[11] as int == root
      && d[12] as int + 0x100 * d[13] as int + 0x1_0000 * d[14] as int + 0x100_0000 * d[15] as int == |s|
  {
    hide LE32, U32;
    var t := Put(s, 8, LE32(U32(root)));
    PointerRoundTrip(root);
    PointerRoundTrip(|s|);
    WordStored(s, 8, U32(root));
    WordStored(t, 12, U32(|s|));
    var d := FinishS(s, root);
    assert forall i :: 0 <= i < 12 ==> d[i] == t[i];
  }

  lemma {:induction false} FreshBytes(version: nat)
    requires version < 256
    ensures InitialS(version) == Ascii("ZAP") + [0, version, 0] + Zeros(10)
  {
    assert LE(version, 2) == [version, 0] by { SmallLE(version); }
    MagicBytes();
    assert Ascii("ZAP") + [0] + [version, 0] + Zeros(10) == Ascii("ZAP") + [0, version, 0] + Zeros(10);
  }

  lemma {:induction false} SmallLE(v: nat)
    requires v < 256
    ensures LE(v, 2) == [v, 0]
  {
    assert LE(v / 256, 1) == [0];
  }

  /** A correlation header: id, then 1 for a request or 2 for a response, little-endian; then the message. */
  lemma {:induction false} CorrelationBytes(id: nat, kind: nat, body: Bytes)
    requires id < TWO32 && kind in {Rpc.REQ, Rpc.RESP}
    ensures var d := Rpc.Wrap(id, kind, body);
      && d[0] as int + 0x100 * d[1] as int + 0x1_0000 * d[2] as int + 0x100_0000 * d[3] as int == id
      && d[4..8] == [if kind == Rpc.REQ then 1 else 2, 0, 0, 0] && d[8..] == body
  {
    hide LE32;
    var d := Rpc.Wrap(id, kind, body);
    assert d[0..4] == LE32(id) && d[4..8] == LE32(kind);
    WordRoundTrip(d, 0, id);
    assert LE32(kind) == [kind, 0, 0, 0] by { SmallWord(kind); }
  }

  lemma {:induction false} SmallWord(v: nat)
    requires v < 256
    ensures LE32(v) == [v, 0, 0, 0]
  {
  }
}
