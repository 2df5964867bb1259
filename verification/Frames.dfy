/** Handshake and session frames: bodies, the outer envelope, and streams of frames. */
module Frames {
  import opened ByteStrings

  const MAX_BODY: nat := 0x100_0000

  const FRAME_HELLO: byte := 0x01
  const FRAME_KEM_INIT: byte := 0x02
  const FRAME_KEM_REPLY: byte := 0x03
  const FRAME_AUTH: byte := 0x04
  const FRAME_DATA: byte := 0x05
  const FRAME_REKEY: byte := 0x06
  const FRAME_ALERT: byte := 0x07
  const FRAME_HELLO_PSK: byte := 0x08

  const RAND_LEN: nat := 16
  const ID_LEN: nat := 32
  const X_LEN: nat := 32
  const KEM_PUB: nat := 1184
  const KEM_CT: nat := 1088
  const SIG_PUB: nat := 1952
  const SIG_LEN: nat := 3309

  // ---- HELLO ----

  datatype Hello = Hello(suite: byte, pqMode: byte, random: Bytes, timestamp: nat, clientId: Bytes,
                         schemes: Bytes, staticPk: Bytes)

  /** The fixed-width fields of a HELLO have their widths (arrays and a uint64 in the Go code). */
  predicate HelloShape(h: Hello)
  {
    |h.random| == RAND_LEN && h.timestamp < TWO64 && |h.clientId| == ID_LEN
  }

  function HelloHead(h: Hello): Bytes
  {
    [h.suite, h.pqMode] + h.random + BE(h.timestamp, 8) + h.clientId + BE(|h.schemes| % TWO32, 4)
  }

  function EncodeHello(h: Hello): Option<Bytes>
  {
    if |h.staticPk| != SIG_PUB || h.schemes == [] then None
    else Some(HelloHead(h) + h.schemes + h.staticPk)
  }

  const HELLO_FIXED: nat := 62

  function HelloOf(b: Bytes, n: nat): Hello
    requires |b| == HELLO_FIXED + n + SIG_PUB
  {
    Hello(b[0], b[1], b[2..18], FromBE(b[18..26]), b[26..58], b[HELLO_FIXED..HELLO_FIXED + n], b[HELLO_FIXED + n..])
  }

  function DecodeHello(b: Bytes): Option<Hello>
  {
    if |b| < HELLO_FIXED + SIG_PUB then None
    else
      var n := FromBE(b[58..62]);
      if n > MAX_BODY || n > |b| - HELLO_FIXED - SIG_PUB || n == 0 || |b| != HELLO_FIXED + n + SIG_PUB then None
      else
        var h := HelloOf(b, n);
        if h.suite in h.schemes then Some(h) else None
  }

  /** The decoder with its two loops: copy the schemes, then look for the suite among them. */
  method ReadHello(b: Bytes) returns (r: Option<Hello>)
    ensures r == DecodeHello(b)
  {
    if |b| < HELLO_FIXED + SIG_PUB {
      return None;
    }
    var suite, pqMode := b[0], b[1];
    var off := 2;
    var random := b[off..off + RAND_LEN];
    off := off + RAND_LEN;
    var timestamp := FromBE(b[off..off + 8]);
    off := off + 8;
    var clientId := b[off..off + ID_LEN];
    off := off + ID_LEN;
    var n := FromBE(b[off..off + 4]);
    off := off + 4;
    if n > MAX_BODY || n > |b| - off - SIG_PUB {
      return None;
    }
    if n == 0 {
      return None;
    }
    var schemes: Bytes := [];
    for i := 0 to n
      invariant schemes == b[off..off + i]
    {
      schemes := schemes + [b[off + i]];
    }
    off := off + n;
    if |b| - off != SIG_PUB {
      return None;
    }
    var staticPk := b[off..off + SIG_PUB];
    var included := false;
    for i := 0 to |schemes|
      invariant !included && suite !in schemes[..i]
    {
      if schemes[i] == suite {
        included := true;
        break;
      }
    }
    assert b[off..] == staticPk;
    if !included {
      return None;
    }
    return Some(Hello(suite, pqMode, random, timestamp, clientId, schemes, staticPk));
  }

  /** What the encoder accepts and the decoder takes: suite offered, list not oversized. */
  predicate ValidHello(h: Hello)
  {
    HelloShape(h) && |h.staticPk| == SIG_PUB && h.suite in h.schemes && |h.schemes| <= MAX_BODY
  }

  /** The decoder returns what was encoded, and refuses only a suite that is not offered. */
  lemma {:induction false} HelloRoundTrip(h: Hello)
    requires HelloShape(h) && EncodeHello(h).Some? && |h.schemes| <= MAX_BODY
    ensures DecodeHello(EncodeHello(h).value) == (if h.suite in h.schemes then Some(h) else None)
  {
    hide BE, FromBE;
    PowFacts();
    BERoundTrip(h.timestamp, 8);
    BERoundTrip(|h.schemes|, 4);
    var b := EncodeHello(h).value;
    var n := |h.schemes|;
    assert b[58..62] == BE(n, 4);
    assert b[2..18] == h.random && b[18..26] == BE(h.timestamp, 8) && b[26..58] == h.clientId;
    assert b[62..62 + n] == h.schemes && b[62 + n..] == h.staticPk;
  }

  /** Only encodings decode: the bytes of a HELLO are determined by its fields. */
  lemma {:induction false} HelloCanonical(b: Bytes)
    requires DecodeHello(b).Some?
    ensures ValidHello(DecodeHello(b).value) && EncodeHello(DecodeHello(b).value) == Some(b)
  {
    hide BE, FromBE;
    var h := DecodeHello(b).value;
    var n := |h.schemes|;
    PowFacts();
    FromBERoundTrip(b[18..26]);
    FromBERoundTrip(b[58..62]);
    assert b == b[..2] + b[2..18] + b[18..26] + b[26..58] + b[58..62] + b[62..62 + n] + b[62 + n..];
    assert b[..2] == [b[0], b[1]];
  }

  // ---- KEM_INIT, KEM_REPLY, AUTH ----

  datatype KemInit = KemInit(x: Bytes, kem: Bytes)

  predicate KemInitShape(k: KemInit)
  {
    |k.x| == X_LEN && |k.kem| == KEM_PUB
  }

  function EncodeKemInit(k: KemInit): Bytes
  {
    k.x + k.kem
  }

  function DecodeKemInit(b: Bytes): Option<KemInit>
  {
    if |b| != X_LEN + KEM_PUB then None else Some(KemInit(b[..X_LEN], b[X_LEN..]))
  }

  lemma {:induction false} KemInitRoundTrip(k: KemInit)
    requires KemInitShape(k)
    ensures DecodeKemInit(EncodeKemInit(k)) == Some(k)
  {
    var b := EncodeKemInit(k);
    assert b[..X_LEN] == k.x && b[X_LEN..] == k.kem;
  }

  lemma {:induction false} KemInitCanonical(b: Bytes)
    requires DecodeKemInit(b).Some?
    ensures KemInitShape(DecodeKemInit(b).value) && EncodeKemInit(DecodeKemInit(b).value) == b
  {
    assert b == b[..X_LEN] + b[X_LEN..];
  }

  datatype KemReply = KemReply(x: Bytes, ct: Bytes, staticPk: Bytes)

  predicate KemReplyShape(k: KemReply)
  {
    |k.x| == X_LEN && |k.ct| == KEM_CT
  }

  function EncodeKemReply(k: KemReply): Option<Bytes>
  {
    if |k.staticPk| != SIG_PUB then None else Some(k.x + k.ct + k.staticPk)
  }

  function DecodeKemReply(b: Bytes): Option<KemReply>
  {
    if |b| != X_LEN + KEM_CT + SIG_PUB then None
    else Some(KemReply(b[..X_LEN], b[X_LEN..X_LEN + KEM_CT], b[X_LEN + KEM_CT..]))
  }

  lemma {:induction false} KemReplyRoundTrip(k: KemReply)
    requires KemReplyShape(k) && |k.staticPk| == SIG_PUB
    ensures EncodeKemReply(k).Some? && DecodeKemReply(EncodeKemReply(k).value) == Some(k)
  {
    var b := EncodeKemReply(k).value;
    assert b[..X_LEN] == k.x && b[X_LEN..X_LEN + KEM_CT] == k.ct && b[X_LEN + KEM_CT..] == k.staticPk;
  }

  lemma {:induction false} KemReplyCanonical(b: Bytes)
    requires DecodeKemReply(b).Some?
    ensures KemReplyShape(DecodeKemReply(b).value) && EncodeKemReply(DecodeKemReply(b).value) == Some(b)
  {
    assert b == b[..X_LEN] + b[X_LEN..X_LEN + KEM_CT] + b[X_LEN + KEM_CT..];
  }

  datatype Auth = Auth(role: byte, signature: Bytes)

  function EncodeAuth(a: Auth): Option<Bytes>
  {
    if |a.signature| != SIG_LEN || a.role !in {0x49, 0x52} then None else Some([a.role] + a.signature)
  }

  function DecodeAuth(b: Bytes): Option<Auth>
  {
    if |b| != 1 + SIG_LEN || b[0] !in {0x49, 0x52} then None else Some(Auth(b[0], b[1..]))
  }

  /** AUTH decodes to what was encoded, and only encodings decode. */
  lemma {:induction false} AuthRoundTrip(a: Auth, b: Bytes)
    ensures EncodeAuth(a) == Some(b) <==> DecodeAuth(b) == Some(a)
  {
    if EncodeAuth(a) == Some(b) {
      assert b[1..] == a.signature;
    }
    if DecodeAuth(b) == Some(a) {
      assert b == [b[0]] + b[1..];
    }
  }

  // ---- HELLO_PSK ----

  datatype HelloPsk = HelloPsk(suite: byte, pqMode: byte, random: Bytes, timestamp: nat, pskId: Bytes, x: Bytes)

  predicate HelloPskShape(h: HelloPsk)
  {
    |h.random| == RAND_LEN && h.timestamp < TWO64 && |h.pskId| == 16 && |h.x| == X_LEN
  }

  function EncodeHelloPsk(h: HelloPsk): Bytes
  {
    [h.suite, h.pqMode] + h.random + BE(h.timestamp, 8) + h.pskId + h.x
  }

  function DecodeHelloPsk(b: Bytes): Option<HelloPsk>
  {
    if |b| != 74 then None
    else Some(HelloPsk(b[0], b[1], b[2..18], FromBE(b[18..26]), b[26..42], b[42..]))
  }

  lemma {:induction false} HelloPskRoundTrip(h: HelloPsk)
    requires HelloPskShape(h)
    ensures DecodeHelloPsk(EncodeHelloPsk(h)) == Some(h)
  {
    hide BE, FromBE;
    PowFacts();
    BERoundTrip(h.timestamp, 8);
    var b := EncodeHelloPsk(h);
    assert b[2..18] == h.random && b[18..26] == BE(h.timestamp, 8) && b[26..42] == h.pskId && b[42..] == h.x;
  }

  lemma {:induction false} HelloPskCanonical(b: Bytes)
    requires DecodeHelloPsk(b).Some?
    ensures HelloPskShape(DecodeHelloPsk(b).value) && EncodeHelloPsk(DecodeHelloPsk(b).value) == b
  {
    hide BE, FromBE;
    PowFacts();
    FromBERoundTrip(b[18..26]);
    assert b == b[..2] + b[2..18] + b[18..26] + b[26..42] + b[42..];
    assert b[..2] == [b[0], b[1]];
  }

  // ---- DATA ----

  datatype Data = Data(counter: nat, ct: Bytes)

  function EncodeData(d: Data): Bytes
  {
    BE(d.counter % TWO64, 8) + BE(|d.ct| % TWO32, 4) + d.ct
  }

  function DecodeData(b: Bytes): (r: Option<Data>)
    ensures r.Some? ==> r.value.counter < TWO64 && |b| == 12 + |r.value.ct|
  {
    PowFacts();
    if |b| < 12 || FromBE(b[8..12]) != |b| - 12 then None
    else Some(Data(FromBE(b[..8]), b[12..]))
  }

  lemma {:induction false} DataLength(d: Data)
    ensures |EncodeData(d)| == 12 + |d.ct|
  {
    hide BE;
  }

  lemma {:induction false} DataRoundTrip(d: Data)
    requires d.counter < TWO64 && |d.ct| < TWO32
    ensures DecodeData(EncodeData(d)) == Some(d)
  {
    hide BE, FromBE;
    PowFacts();
    BERoundTrip(d.counter, 8);
    BERoundTrip(|d.ct|, 4);
    var b := EncodeData(d);
    assert b[..8] == BE(d.counter, 8) && b[8..12] == BE(|d.ct|, 4) && b[12..] == d.ct;
  }

  lemma {:induction false} DataCanonical(b: Bytes)
    requires DecodeData(b).Some?
    ensures EncodeData(DecodeData(b).value) == b
  {
    hide BE, FromBE;
    PowFacts();
    FromBERoundTrip(b[..8]);
    FromBERoundTrip(b[8..12]);
    assert b == b[..8] + b[8..12] + b[12..];
  }

  // ---- ALERT ----

  /** The named failures: first the ones an ALERT code carries, then the purely local ones. */
  datatype Error =
      DecodeError | UnsupportedSuite | AuthFailed | ReplayDetected | DowngradeRefused | HandshakeTimeout
    | NonceViolation | PskUnknown | VmIdentityMismatch | AuthoritySigFailed | PolicyRefused
    | SessionClosed | EpochExhausted | MagicMismatch | SealMismatch | WriteFailed | StreamEnded | Misconfigured

  function ErrorForAlert(code: byte): Error
  {
    match code
    case 0x02 => UnsupportedSuite
    case 0x03 => AuthFailed
    case 0x04 => ReplayDetected
    case 0x05 => DowngradeRefused
    case 0x06 => HandshakeTimeout
    case 0x07 => NonceViolation
    case 0x08 => PskUnknown
    case 0x09 => VmIdentityMismatch
    case 0x0A => AuthoritySigFailed
    case 0x0B => PolicyRefused
    case _ => DecodeError
  }

  function AlertForError(e: Error): byte
  {
    match e
    case UnsupportedSuite => 0x02
    case AuthFailed => 0x03
    case ReplayDetected => 0x04
    case DowngradeRefused => 0x05
    case HandshakeTimeout => 0x06
    case NonceViolation => 0x07
    case PskUnknown => 0x08
    case VmIdentityMismatch => 0x09
    case AuthoritySigFailed => 0x0A
    case PolicyRefused => 0x0B
    case _ => 0x01
  }

  /** The failures that have an ALERT code of their own. */
  predicate OnWire(e: Error)
  {
    e in {DecodeError, UnsupportedSuite, AuthFailed, ReplayDetected, DowngradeRefused, HandshakeTimeout,
          NonceViolation, PskUnknown, VmIdentityMismatch, AuthoritySigFailed, PolicyRefused}
  }

  datatype Alert = Alert(code: byte, detail: Bytes)

  function EncodeAlert(a: Alert): Bytes
  {
    [a.code] + BE(|a.detail| % TWO32, 4) + a.detail
  }

  function DecodeAlert(b: Bytes): Option<Alert>
  {
    if |b| < 5 || FromBE(b[1..5]) != |b| - 5 then None else Some(Alert(b[0], b[5..]))
  }

  /** The reader of an ALERT names the failure its writer met, or a decode failure for a local one. */
  lemma {:induction false} AlertRoundTrip(e: Error, detail: Bytes)
    requires |detail| < TWO32
    ensures DecodeAlert(EncodeAlert(Alert(AlertForError(e), detail))) == Some(Alert(AlertForError(e), detail))
    ensures ErrorForAlert(AlertForError(e)) == (if OnWire(e) then e else DecodeError)
  {
    hide BE, FromBE;
    PowFacts();
    BERoundTrip(|detail|, 4);
    var b := EncodeAlert(Alert(AlertForError(e), detail));
    assert b[1..5] == BE(|detail|, 4) && b[5..] == detail;
  }

  // ---- envelopes and streams ----

  datatype Frame = Frame(typ: byte, body: Bytes)

  predicate Sendable(f: Frame)
  {
    |f.body| <= MAX_BODY
  }

  /** writeFrame: type, big-endian length, body. */
  function Envelope(f: Frame): (r: Bytes)
    ensures |r| == 5 + |f.body|
  {
    [f.typ] + BE(|f.body| % TWO32, 4) + f.body
  }

  datatype ReadResult = Got(frame: Frame, rest: Bytes) | TooLarge | Short

  function ReadFrame(stream: Bytes): (r: ReadResult)
    ensures r.Got? ==> |r.rest| < |stream|
  {
    if |stream| < 5 then Short
    else
      var n := FromBE(stream[1..5]);
      if n > MAX_BODY then TooLarge
      else if |stream| < 5 + n then Short
      else Got(Frame(stream[0], stream[5..5 + n]), stream[5 + n..])
  }

  lemma {:induction false} EnvelopeRoundTrip(f: Frame, rest: Bytes)
    requires Sendable(f)
    ensures ReadFrame(Envelope(f) + rest) == Got(f, rest)
  {
    hide BE, FromBE;
    PowFacts();
    BERoundTrip(|f.body|, 4);
    var s := Envelope(f) + rest;
    var n := |f.body|;
    assert s[1..5] == BE(n, 4) && s[5..5 + n] == f.body && s[5 + n..] == rest;
  }

  /** Reading from a part of the stream: nothing until the whole frame is there. */
  lemma {:induction false} PartialFrame(f: Frame, rest: Bytes, n: nat)
    requires Sendable(f) && n <= |Envelope(f) + rest|
    ensures ReadFrame((Envelope(f) + rest)[..n]) ==
      (if n < |Envelope(f)| then Short else Got(f, rest[..n - |Envelope(f)|]))
  {
    hide BE, FromBE;
    var e := Envelope(f);
    var s := (e + rest)[..n];
    if n >= |e| {
      assert s == e + rest[..n - |e|];
      EnvelopeRoundTrip(f, rest[..n - |e|]);
    } else if n >= 5 {
      PowFacts();
      BERoundTrip(|f.body|, 4);
      assert s[1..5] == e[1..5];
      assert e[1..5] == BE(|f.body|, 4);
    }
  }

  function Envelopes(fs: seq<Frame>): Bytes
  {
    if fs == [] then [] else Envelope(fs[0]) + Envelopes(fs[1..])
  }

  /** The frames a reader finds, up to the first short or oversized one. */
  function FramesOf(stream: Bytes): seq<Frame>
    decreases |stream|
  {
    match ReadFrame(stream)
    case Got(f, rest) => [f] + FramesOf(rest)
    case _ => []
  }

  /** A byte stream of envelopes reads back as the frames that were written, in order. */
  lemma {:induction false} StreamRoundTrip(fs: seq<Frame>)
    requires forall i :: 0 <= i < |fs| ==> Sendable(fs[i])
    ensures FramesOf(Envelopes(fs)) == fs
  {
    if fs != [] {
      StreamRoundTrip(fs[1..]);
      EnvelopeRoundTrip(fs[0], Envelopes(fs[1..]));
    }
  }

  lemma {:induction false} SeqAssoc(a: Bytes, b: Bytes, c: Bytes)
    ensures a + (b + c) == a + b + c
  {
  }

  lemma {:induction false} EnvelopesConcat(a: seq<Frame>, b: seq<Frame>)
    ensures Envelopes(a + b) == Envelopes(a) + Envelopes(b)
  {
    hide Envelope;
    if a == [] {
      assert a + b == b;
    } else {
      EnvelopesConcat(a[1..], b);
      assert (a + b)[1..] == a[1..] + b;
      SeqAssoc(Envelope(a[0]), Envelopes(a[1..]), Envelopes(b));
    }
  }
}
