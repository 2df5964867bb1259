/** An honest handshake over a faithful channel goes through, at both ends. */
module Completion {
  import opened ByteStrings
  import opened Frames
  import opened Primitives
  import opened Transcripts
  import opened Handshake
  import opened Agreement
  import opened Resumption
  import Replay

  /** The two sides' settings, coins and clocks. */
  datatype Setting = Setting(icfg: InitCfg, ic: InitCoins, inow: int, rcfg: RespCfg, rc: RespCoins, rst: RespSt,
    rnow: int)

  /** The initiator's offer is in order and the responder's policy, replay gate and key exchange admit it. */
  predicate Admissible(c: Crypto, s: Setting)
  {
    var h := OwnHello(c, s.icfg, s.ic, s.inow);
    && Suite(s.icfg) == SUITE_V1 && |s.ic.random| == RAND_LEN
    && (s.icfg.resume.Some? ==> s.icfg.resume.value.until <= s.inow)
    && h.suite in h.schemes && |h.schemes| <= MAX_BODY - HELLO_FIXED - SIG_PUB
    && (s.icfg.expected.Some? ==> s.icfg.expected.value == c.hash(c.sigPub(s.rcfg.sk)))
    && AcceptsSuite(s.rcfg, SUITE_V1)
    && (s.rcfg.strict ==>
          s.rst.cache.Some? && h.pqMode != MODE_CLASSICAL &&
          forall k :: 0 <= k < |h.schemes| ==> h.schemes[k] == SUITE_V1)
    && Gate(s.rst.cache, Replay.Key(h.clientId, h.random), h.timestamp, s.rnow).1
    && c.dh(s.rc.xSk, c.dhPub(s.ic.xSk)).Some?
    && c.kemPkOk(c.kemPub(s.ic.kemSk))
    && c.encap(c.kemPub(s.ic.kemSk), s.rc.kem).Some?
    && |c.encap(c.kemPub(s.ic.kemSk), s.rc.kem).value.0| == KEM_CT
  }

  function HelloBody(c: Crypto, s: Setting): Bytes
  {
    var b := EncodeHello(OwnHello(c, s.icfg, s.ic, s.inow));
    if b.Some? then b.value else []
  }

  /** What both sides come to see. */
  function Exchange(c: Crypto, s: Setting): View
  {
    var r := RespView(c, s.rcfg, s.rc, OwnHello(c, s.icfg, s.ic, s.inow), HelloBody(c, s), KemInitBody(c, s.ic));
    if r.Ok? then r.value else View(Script(0, [], [], [], [], [], []), [], [])
  }

  function AuthFrame(c: Crypto, sk: Bytes, v: View, role: byte, coins: Bytes): Frame
  {
    var a := MakeAuth(c, sk, v, role, coins);
    Frame(FRAME_AUTH, if a.Ok? then a.value else [])
  }

  function Forth(c: Crypto, s: Setting): seq<Frame>
  {
    [Frame(FRAME_HELLO, HelloBody(c, s)), Frame(FRAME_KEM_INIT, KemInitBody(c, s.ic)),
     AuthFrame(c, s.icfg.sk, Exchange(c, s), ROLE_I, s.ic.sig)]
  }

  function Back(c: Crypto, s: Setting): seq<Frame>
  {
    [Frame(FRAME_KEM_REPLY, Exchange(c, s).script.reply), AuthFrame(c, s.rcfg.sk, Exchange(c, s), ROLE_R, s.rc.sig)]
  }

  /** The two runs, each reading what the other writes. */
  function HonestInit(c: Crypto, s: Setting): Initiator
  {
    Initiator(s.icfg, s.ic, s.inow, 4, Envelopes(Back(c, s)))
  }

  function HonestResp(c: Crypto, s: Setting): Responder
  {
    Responder(s.rcfg, s.rc, s.rst, s.rnow, 2, MAGIC + Envelopes(Forth(c, s)))
  }

  lemma {:induction false} ExpectWhole(f: Frame, tail: Bytes, want: byte)
    requires Sendable(f) && f.typ == want != FRAME_ALERT
    ensures Expect(Envelope(f) + tail, want) == (Ok(f.body), tail)
  {
    hide Envelope, ReadFrame;
    EnvelopeRoundTrip(f, tail);
  }

  /** A frame out of turn ends the run, without an ALERT. */
  lemma {:induction false} ExpectOther(f: Frame, tail: Bytes, want: byte)
    requires Sendable(f) && f.typ != want && f.typ != FRAME_ALERT
    ensures Expect(Envelope(f) + tail, want) == (Err(DecodeError, false), tail)
  {
    hide Envelope, ReadFrame;
    EnvelopeRoundTrip(f, tail);
  }

  /** The peer accepts the signature made over the same view. */
  lemma {:induction false} OwnAuthChecks(c: Crypto, sk: Bytes, v: View, role: byte, coins: Bytes)
    requires SignCorrect(c) && OutputLengths(c) && role in {ROLE_I, ROLE_R}
    requires c.sigPub(sk) == (if role == ROLE_R then v.script.pkR else v.script.pkI)
    ensures MakeAuth(c, sk, v, role, coins).Ok?
    ensures CheckAuth(c, v, role, MakeAuth(c, sk, v, role, coins).value).Ok?
    ensures Sendable(AuthFrame(c, sk, v, role, coins))
  {
    hide H2, SignInput;
    var sig := c.sign(sk, SignInput(H2(c, v.script), role, v.script.suite), coins);
    assert c.verify(c.sigPub(sk), SignInput(H2(c, v.script), role, v.script.suite), sig);
    assert ([role] + sig)[1..] == sig;
  }

  lemma {:induction false} HelloAdmitted(c: Crypto, s: Setting)
    requires Admissible(c, s) && OutputLengths(c) && SignCorrect(c)
    ensures EncodeHello(OwnHello(c, s.icfg, s.ic, s.inow)) == Some(HelloBody(c, s))
    ensures CheckHello(c, s.rcfg, s.rst.cache, HelloBody(c, s), s.rnow).0 == Ok(OwnHello(c, s.icfg, s.ic, s.inow))
    ensures Sendable(Frame(FRAME_HELLO, HelloBody(c, s)))
  {
    hide BE, DecodeHello, Gate;
    var h := OwnHello(c, s.icfg, s.ic, s.inow);
    PowFacts();
    HelloRoundTrip(h);
    assert c.verify(c.sigPub(s.icfg.sk), [], c.sign(s.icfg.sk, [], []));
  }

  /** Both ends compute the same view from each other's frames. */
  lemma {:induction false} SameExchange(c: Crypto, s: Setting)
    requires Admissible(c, s) && OutputLengths(c) && SignCorrect(c) && ExchangeCorrect(c)
    ensures RespView(c, s.rcfg, s.rc, OwnHello(c, s.icfg, s.ic, s.inow), HelloBody(c, s), KemInitBody(c, s.ic))
            == Ok(Exchange(c, s))
    ensures InitView(c, s.icfg, s.ic, HelloBody(c, s), Exchange(c, s).script.reply) == Ok(Exchange(c, s))
    ensures Exchange(c, s).script.pkI == c.sigPub(s.icfg.sk) && Exchange(c, s).script.pkR == c.sigPub(s.rcfg.sk)
    ensures Exchange(c, s).script.suite == SUITE_V1
    ensures Sendable(Frame(FRAME_KEM_REPLY, Exchange(c, s).script.reply))
    ensures Sendable(Frame(FRAME_KEM_INIT, KemInitBody(c, s.ic)))
  {
    hide HelloBody, Gate, AcceptsSuite;
    var k := KemInit(c.dhPub(s.ic.xSk), c.kemPub(s.ic.kemSk));
    KemInitRoundTrip(k);
    var ct := c.encap(k.kem, s.rc.kem).value.0;
    var reply := KemReply(c.dhPub(s.rc.xSk), ct, c.sigPub(s.rcfg.sk));
    KemReplyRoundTrip(reply);
    assert c.dh(s.ic.xSk, c.dhPub(s.rc.xSk)) == c.dh(s.rc.xSk, c.dhPub(s.ic.xSk));
    assert c.verify(c.sigPub(s.rcfg.sk), [], c.sign(s.rcfg.sk, [], []));
  }

  lemma {:induction false} InitCompletes(c: Crypto, s: Setting)
    requires Admissible(c, s) && OutputLengths(c) && SignCorrect(c) && ExchangeCorrect(c)
    ensures var o := InitOf(c, HonestInit(c, s));
      o.result.Ok? && o.view.Some? && InitBytes(o) == MAGIC + Envelopes(Forth(c, s))
  {
    hide OutputLengths, SignCorrect, ExchangeCorrect, Envelope, Envelopes, EncodeHello, OwnHello, HelloBody,
         KemInitBody, Exchange, InitView, CheckAuth, MakeAuth, Expect, AuthFrame, Sendable, Gate, KeysOf, AcceptsSuite,
         CheckHello, InitResume;
    HelloAdmitted(c, s);
    SameExchange(c, s);
    var v := Exchange(c, s);
    OwnAuthChecks(c, s.rcfg.sk, v, ROLE_R, s.rc.sig);
    OwnAuthChecks(c, s.icfg.sk, v, ROLE_I, s.ic.sig);
    var b := Back(c, s);
    assert b == [b[0], b[1]] + [];
    TwoEnvelopes(b[0], b[1], []);
    AuthFrameIs(c, s.rcfg.sk, v, ROLE_R, s.rc.sig);
    AuthFrameIs(c, s.icfg.sk, v, ROLE_I, s.ic.sig);
    ExpectWhole(b[0], Envelope(b[1]) + Envelopes([]), FRAME_KEM_REPLY);
    ExpectWhole(b[1], Envelopes([]), FRAME_AUTH);
    assert InitOf(c, HonestInit(c, s)).frames == Forth(c, s);
  }

  lemma {:induction false} AuthFrameIs(c: Crypto, sk: Bytes, v: View, role: byte, coins: Bytes)
    requires MakeAuth(c, sk, v, role, coins).Ok?
    ensures AuthFrame(c, sk, v, role, coins) == Frame(FRAME_AUTH, MakeAuth(c, sk, v, role, coins).value)
  {
    hide MakeAuth;
  }

  lemma {:induction false} RespCompletes(c: Crypto, s: Setting)
    requires Admissible(c, s) && OutputLengths(c) && SignCorrect(c) && ExchangeCorrect(c)
    ensures var o := RespOf(c, HonestResp(c, s)); o.result.Ok? && o.frames == Back(c, s)
  {
    hide OutputLengths, SignCorrect, ExchangeCorrect, Envelope, Envelopes, EncodeHello, OwnHello, HelloBody,
         KemInitBody, Exchange, RespView, CheckAuth, MakeAuth, Expect, AuthFrame, Sendable, Gate, KeysOf, CheckHello,
         ReadFrame, AcceptsSuite, Issued, RespResume;
    HelloAdmitted(c, s);
    SameExchange(c, s);
    var v := Exchange(c, s);
    OwnAuthChecks(c, s.rcfg.sk, v, ROLE_R, s.rc.sig);
    OwnAuthChecks(c, s.icfg.sk, v, ROLE_I, s.ic.sig);
    AuthFrameIs(c, s.rcfg.sk, v, ROLE_R, s.rc.sig);
    AuthFrameIs(c, s.icfg.sk, v, ROLE_I, s.ic.sig);
    var f := Forth(c, s);
    assert f == [f[0], f[1]] + [f[2]];
    TwoEnvelopes(f[0], f[1], [f[2]]);
    LoneEnvelope(f[2]);
    var inbox := MAGIC + Envelopes(f);
    assert inbox[..4] == MAGIC && inbox[4..] == Envelopes(f);
    EnvelopeRoundTrip(f[0], Envelope(f[1]) + Envelopes([f[2]]));
    ExpectWhole(f[1], Envelopes([f[2]]), FRAME_KEM_INIT);
    ExpectWhole(f[2], [], FRAME_AUTH);
  }

  /**
   Admissible settings always complete: both runs finish as partners, and each one's input is exactly
   the other's output.
   */
  lemma {:induction false} HandshakeCompletes(c: Crypto, s: Setting)
    requires Admissible(c, s) && OutputLengths(c) && SignCorrect(c) && ExchangeCorrect(c)
    ensures BothFinish(c, HonestInit(c, s), HonestResp(c, s))
    ensures FaithfulChannel(c, HonestInit(c, s), HonestResp(c, s))
    ensures Partners(c, HonestInit(c, s), HonestResp(c, s))
  {
    hide OutputLengths, SignCorrect, ExchangeCorrect, InitOf, RespOf, Partners, Envelopes, Forth, Back;
    InitCompletes(c, s);
    RespCompletes(c, s);
    FullHandshakeAgrees(c, HonestInit(c, s), HonestResp(c, s));
  }

  /** Honest runs meet what the agreement theorems ask: each side's message was signed by the other's run. */
  lemma {:induction false} HonestRunsQualify(c: Crypto, s: Setting)
    requires Admissible(c, s) && OutputLengths(c) && SignCorrect(c) && ExchangeCorrect(c)
    ensures var (i, r) := (HonestInit(c, s), HonestResp(c, s));
      && InitOf(c, i).view.Some? && RespOf(c, r).view == InitOf(c, i).view && RespOf(c, r).result.Ok?
      && InitOf(c, i).view.value.script.pkI == c.sigPub(s.icfg.sk)
      && Unforgeable(c, s.rcfg.sk, Message(c, InitOf(c, i).view.value, ROLE_R), [i], [r])
      && Unforgeable(c, s.icfg.sk, Message(c, InitOf(c, i).view.value, ROLE_I), [i], [r])
  {
    hide OutputLengths, SignCorrect, ExchangeCorrect, InitOf, RespOf, Admissible, Message, Verifies, KeysOf;
    HandshakeCompletes(c, s);
    var (i, r) := (HonestInit(c, s), HonestResp(c, s));
    InitSigns(c, i);
    var v := InitOf(c, i).view.value;
    assert RespSigned(c, [r][0], s.rcfg.sk, Message(c, v, ROLE_R));
    assert InitSigned(c, [i][0], s.icfg.sk, Message(c, v, ROLE_I));
  }
}
