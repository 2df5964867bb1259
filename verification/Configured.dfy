/** Which settings complete a handshake, told from configuration, clocks and caches alone. */
module Configured {
  import opened ByteStrings
  import opened Frames
  import opened Primitives
  import opened Transcripts
  import opened Handshake
  import opened Agreement
  import opened Resumption
  import opened Completion
  import Replay
  import PskStores

  /** Clock readings after 1970 that fit 64 signed bits. */
  predicate GoodClock(now: int)
  {
    0 <= now < TWO63
  }

  /** A first frame with this key passes the cache: not held, and room for it. */
  predicate CacheAdmits(s: Replay.Cache, k: Replay.Key, now: int)
  {
    if now - s.frozenAt < s.ttl then k !in s.frozen && k !in s.active && |s.active| < s.maxLen
    else k !in s.active && 0 < s.maxLen
  }

  /** No replay cache, or clocks at most 30 seconds apart and a cache that admits the key. */
  predicate Punctual(cache: Option<Replay.Cache>, k: Replay.Key, inow: int, rnow: int)
  {
    cache.Some? ==> -30_000_000_000 <= inow - rnow <= 30_000_000_000 && CacheAdmits(cache.value, k, rnow)
  }

  lemma {:induction false} GateIff(cache: Option<Replay.Cache>, k: Replay.Key, inow: int, rnow: int)
    requires GoodClock(inow) && GoodClock(rnow)
    ensures Gate(cache, k, inow % TWO64, rnow).1 <==> Punctual(cache, k, inow, rnow)
  {
  }

  /** The primitives' answers for these coins: both halves of the exchange work out. */
  predicate Exchanges(c: Crypto, s: Setting)
  {
    && c.dh(s.rc.xSk, c.dhPub(s.ic.xSk)).Some? && c.kemPkOk(c.kemPub(s.ic.kemSk))
    && c.encap(c.kemPub(s.ic.kemSk), s.rc.kem).Some?
    && |c.encap(c.kemPub(s.ic.kemSk), s.rc.kem).value.0| == KEM_CT
  }

  /** A responder that insists on post-quantum has a replay cache and meets an initiator that does, or asks for it. */
  predicate Strict(icfg: InitCfg, rcfg: RespCfg, rst: RespSt)
  {
    rcfg.strict ==> rst.cache.Some? && (icfg.strict || icfg.pqMode != 0x00)
  }

  /** The one suite there is, by default or by name, and the responder takes it. */
  predicate SameSuite(icfg: InitCfg, rcfg: RespCfg)
  {
    icfg.suite in {0x00, 0x01} && (rcfg.accepted == [] || 0x01 in rcfg.accepted)
  }

  /** The offered schemes: none named, or a list with the suite that fits a frame, and to a strict responder only it. */
  predicate Offers(icfg: InitCfg, rcfg: RespCfg)
  {
    icfg.schemes != [] ==>
      && 0x01 in icfg.schemes && |icfg.schemes| <= 0x100_0000 - 62 - 1952
      && (rcfg.strict ==> forall k :: 0 <= k < |icfg.schemes| ==> icfg.schemes[k] == 0x01)
  }

  /** The initiator expects nobody in particular, or this responder. */
  predicate Expects(c: Crypto, icfg: InitCfg, rcfg: RespCfg)
  {
    icfg.expected.Some? ==> icfg.expected.value == c.hash(c.sigPub(rcfg.sk))
  }

  predicate Configured(c: Crypto, s: Setting)
  {
    && SameSuite(s.icfg, s.rcfg) && Offers(s.icfg, s.rcfg) && Expects(c, s.icfg, s.rcfg)
    && Strict(s.icfg, s.rcfg, s.rst)
    && Punctual(s.rst.cache, Replay.Key(c.hash(c.sigPub(s.icfg.sk)), s.ic.random), s.inow, s.rnow)
  }

  /** Neither end's coins, clock or cached key stand in the way of a full exchange. */
  predicate Ready(c: Crypto, s: Setting)
  {
    && |s.ic.random| == RAND_LEN && GoodClock(s.inow) && GoodClock(s.rnow) && Exchanges(c, s)
    && (s.icfg.resume.Some? ==> s.icfg.resume.value.until <= s.inow)
  }

  /** The HELLO a run sends says when it was sent, by whom, and what is offered. */
  lemma {:induction false} HelloSays(c: Crypto, cfg: InitCfg, coins: InitCoins, now: int)
    requires GoodClock(now)
    ensures var h := OwnHello(c, cfg, coins, now);
      && h.timestamp == now && h.random == coins.random
      && h.staticPk == c.sigPub(cfg.sk) && h.clientId == c.hash(c.sigPub(cfg.sk))
      && h.suite == (if cfg.suite == 0x00 then 0x01 else cfg.suite)
      && h.schemes == (if cfg.schemes == [] then [h.suite] else cfg.schemes)
      && h.pqMode == (if cfg.pqMode == 0x00 && cfg.strict then 0x02 else cfg.pqMode)
  {
  }

  lemma {:induction false} AdmissibleIff(c: Crypto, s: Setting)
    requires Ready(c, s)
    ensures Admissible(c, s) <==> Configured(c, s)
  {
    hide Gate, Punctual, Exchanges;
    HelloSays(c, s.icfg, s.ic, s.inow);
    GateIff(s.rst.cache, Replay.Key(c.hash(c.sigPub(s.icfg.sk)), s.ic.random), s.inow, s.rnow);
    Working(c, s);
  }

  lemma {:induction false} Working(c: Crypto, s: Setting)
    requires Ready(c, s)
    ensures c.dh(s.rc.xSk, c.dhPub(s.ic.xSk)).Some? && c.kemPkOk(c.kemPub(s.ic.kemSk))
    ensures c.encap(c.kemPub(s.ic.kemSk), s.rc.kem).Some?
    ensures |c.encap(c.kemPub(s.ic.kemSk), s.rc.kem).value.0| == KEM_CT
  {
  }

  // ---- and no others ----

  lemma {:induction false} RunsInFull(c: Crypto, s: Setting)
    requires Ready(c, s) && InitOf(c, HonestInit(c, s)).result.Ok?
    ensures InitOf(c, HonestInit(c, s)).view.Some? && Suite(s.icfg) == SUITE_V1
  {
    hide EncodeHello, OwnHello, KemInitBody, Expect, InitView, CheckAuth, MakeAuth, KeysOf, Sendable, Envelopes, Back,
         InitResume, Exchanges;
  }

  /** The HELLO that was sent, and arrives. */
  lemma {:induction false} HelloWritten(c: Crypto, s: Setting)
    requires Ready(c, s) && OutputLengths(c) && InitOf(c, HonestInit(c, s)).result.Ok?
    ensures EncodeHello(OwnHello(c, s.icfg, s.ic, s.inow)) == Some(HelloBody(c, s))
    ensures Sendable(Frame(FRAME_HELLO, HelloBody(c, s)))
    ensures |Schemes(s.icfg)| <= MAX_BODY - HELLO_FIXED - SIG_PUB
  {
    hide InitOf, OwnHello, EncodeHello, Exchanges, Ready;
    RunsInFull(c, s);
    InitTrace(c, HonestInit(c, s));
    HelloLength(c, s.icfg, s.ic, s.inow) by { RandomLength(c, s); }
  }

  lemma {:induction false} RandomLength(c: Crypto, s: Setting)
    requires Ready(c, s)
    ensures |s.ic.random| == RAND_LEN && GoodClock(s.inow) && GoodClock(s.rnow)
    ensures s.icfg.resume.Some? ==> s.icfg.resume.value.until <= s.inow
  {
  }

  lemma {:induction false} HelloLength(c: Crypto, cfg: InitCfg, coins: InitCoins, now: int)
    requires OutputLengths(c) && |coins.random| == RAND_LEN && EncodeHello(OwnHello(c, cfg, coins, now)).Some?
    ensures |EncodeHello(OwnHello(c, cfg, coins, now)).value| == HELLO_FIXED + |Schemes(cfg)| + SIG_PUB
  {
    hide BE;
  }

  /** A responder that finished let the HELLO in. */
  lemma {:induction false} HelloLetIn(c: Crypto, s: Setting)
    requires RespOf(c, HonestResp(c, s)).result.Ok? && Sendable(Frame(FRAME_HELLO, HelloBody(c, s)))
    ensures CheckHello(c, s.rcfg, s.rst.cache, HelloBody(c, s), s.rnow).0.Ok?
    ensures s.rcfg.strict ==> s.rst.cache.Some?
  {
    hide CheckHello, Envelope, Envelopes, ReadFrame, HelloBody, AuthFrame, KemInitBody, Sendable, RespAuth, RespView,
         Expect, RespResume, Exchange;
    var f := Forth(c, s);
    var inbox := MAGIC + Envelopes(f);
    assert inbox[..4] == MAGIC && inbox[4..] == Envelopes(f);
    assert f == [f[0], f[1]] + [f[2]];
    TwoEnvelopes(f[0], f[1], [f[2]]);
    EnvelopeRoundTrip(f[0], Envelope(f[1]) + Envelopes([f[2]]));
  }

  /** What letting it in means. */
  lemma {:induction false} LetInMeans(c: Crypto, cfg: RespCfg, cache: Option<Replay.Cache>, body: Bytes, now: int)
    requires CheckHello(c, cfg, cache, body, now).0.Ok?
    ensures DecodeHello(body).Some?
    ensures var h := DecodeHello(body).value;
      && AcceptsSuite(cfg, h.suite) && h.suite in h.schemes
      && (cfg.strict ==> h.pqMode != MODE_CLASSICAL && forall k :: 0 <= k < |h.schemes| ==> h.schemes[k] == SUITE_V1)
      && Gate(cache, Replay.Key(h.clientId, h.random), h.timestamp, now).1
  {
    hide Gate, FromBE;
  }

  /** The setting without an expected key. */
  function Unpinned(s: Setting): Setting
  {
    s.(icfg := s.icfg.(expected := None))
  }

  lemma {:induction false} UnpinnedAdmissible(c: Crypto, s: Setting)
    requires Ready(c, s) && OutputLengths(c) && BothFinish(c, HonestInit(c, s), HonestResp(c, s))
    ensures Admissible(c, Unpinned(s))
  {
    hide Gate, InitOf, RespOf, CheckHello, DecodeHello, HelloBody, EncodeHello, OutputLengths, Exchanges, Ready;
    RunsInFull(c, s);
    HelloWritten(c, s);
    HelloLetIn(c, s);
    LetInMeans(c, s.rcfg, s.rst.cache, HelloBody(c, s), s.rnow);
    RandomLength(c, s);
    Working(c, s);
    assert |HelloBody(c, s)| <= MAX_BODY by { SendableBody(Frame(FRAME_HELLO, HelloBody(c, s))); }
    HelloArrives(c, HonestInit(c, s), HelloBody(c, s));
  }

  lemma {:induction false} PinnedRight(c: Crypto, s: Setting)
    requires Ready(c, s) && OutputLengths(c) && SignCorrect(c) && ExchangeCorrect(c) && Admissible(c, Unpinned(s))
    requires InitOf(c, HonestInit(c, s)).result.Ok?
    ensures Expects(c, s.icfg, s.rcfg)
  {
    hide InitOf, RespView, InitView, Exchange, Envelope, Envelopes, Expect, AuthFrame, HelloBody, OwnHello,
         OutputLengths, SignCorrect, ExchangeCorrect, Admissible, InitHolds, Sendable, Ready;
    var u := Unpinned(s);
    SameExchange(c, u);
    SameOffer(c, s);
    InitViewHolds(c, u.icfg, u.ic, HelloBody(c, u), Exchange(c, u).script.reply);
    var b := Back(c, s);
    assert b == [b[0], b[1]] + [];
    TwoEnvelopes(b[0], b[1], []);
    ExpectWhole(b[0], Envelope(b[1]) + Envelopes([]), FRAME_KEM_REPLY);
    RunsInFull(c, s);
    InitTrace(c, HonestInit(c, s));
    InitSigns(c, HonestInit(c, s));
    SameKey(c, s.icfg, s.ic, InitOf(c, HonestInit(c, s)).view.value, u.icfg, Exchange(c, u));
  }

  /** The expected key shows in nothing that is sent. */
  lemma {:induction false} SameOffer(c: Crypto, s: Setting)
    ensures Exchange(c, Unpinned(s)) == Exchange(c, s) && HelloBody(c, Unpinned(s)) == HelloBody(c, s)
  {
    hide RespView, EncodeHello;
  }

  lemma {:induction false} SameKey(c: Crypto, cfg: InitCfg, coins: InitCoins, v: View, other: InitCfg, u: View)
    requires InitHolds(c, cfg, coins, v) && InitHolds(c, other, coins, u) && v.script.reply == u.script.reply
    ensures v.script.pkR == u.script.pkR
    ensures cfg.expected.Some? ==> cfg.expected.value == c.hash(u.script.pkR)
  {
  }

  /**
   Exactly when an honest full handshake over a faithful channel goes through, from what the two ends
   are set up with: then both runs finish as partners.
   */
  lemma {:induction false} CompletesIff(c: Crypto, s: Setting)
    requires Ready(c, s) && OutputLengths(c) && SignCorrect(c) && ExchangeCorrect(c)
    ensures BothFinish(c, HonestInit(c, s), HonestResp(c, s)) <==> Configured(c, s)
    ensures Configured(c, s) ==> FaithfulChannel(c, HonestInit(c, s), HonestResp(c, s))
    ensures Configured(c, s) ==> Partners(c, HonestInit(c, s), HonestResp(c, s))
  {
    hide OutputLengths, SignCorrect, ExchangeCorrect, InitOf, RespOf, Partners, Admissible, Punctual,
         FaithfulChannel;
    AdmissibleIff(c, s);
    if Configured(c, s) {
      HandshakeCompletes(c, s);
    }
    if BothFinish(c, HonestInit(c, s), HonestResp(c, s)) {
      UnpinnedAdmissible(c, s);
      AdmissibleIff(c, Unpinned(s));
      PinnedRight(c, s);
    }
  }

  // ---- refusals, and that they are heard ----

  /** Why a responder turns a HELLO away, in the order it looks. */
  function Refusal(c: Crypto, s: Setting): Option<Error>
  {
    if s.rcfg.accepted != [] && 0x01 !in s.rcfg.accepted then Some(UnsupportedSuite)
    else if s.rcfg.strict && (!(s.icfg.strict || s.icfg.pqMode != 0x00) || Other(s.icfg.schemes)) then
      Some(DowngradeRefused)
    else if !Punctual(s.rst.cache, Replay.Key(c.hash(c.sigPub(s.icfg.sk)), s.ic.random), s.inow, s.rnow) then
      Some(ReplayDetected)
    else None
  }

  predicate Other(schemes: Bytes)
  {
    exists k :: 0 <= k < |schemes| && schemes[k] != 0x01
  }

  /** An offer that decodes, to a responder that may run at all. */
  predicate Understood(s: Setting)
  {
    && s.icfg.suite in {0x00, 0x01} && (s.rcfg.strict ==> s.rst.cache.Some?)
    && (s.icfg.schemes != [] ==> 0x01 in s.icfg.schemes && |s.icfg.schemes| <= 0x100_0000 - 62 - 1952)
  }

  lemma {:induction false} HelloUnderstood(c: Crypto, s: Setting)
    requires Ready(c, s) && Understood(s) && OutputLengths(c)
    ensures EncodeHello(OwnHello(c, s.icfg, s.ic, s.inow)) == Some(HelloBody(c, s))
    ensures DecodeHello(HelloBody(c, s)) == Some(OwnHello(c, s.icfg, s.ic, s.inow))
    ensures Sendable(Frame(FRAME_HELLO, HelloBody(c, s)))
  {
    hide BE, DecodeHello, Exchanges;
    var h := OwnHello(c, s.icfg, s.ic, s.inow);
    PowFacts();
    HelloSays(c, s.icfg, s.ic, s.inow);
    HelloRoundTrip(h);
  }

  lemma {:induction false} HelloRefused(c: Crypto, s: Setting)
    requires Ready(c, s) && Understood(s) && OutputLengths(c) && Refusal(c, s).Some?
    ensures CheckHello(c, s.rcfg, s.rst.cache, HelloBody(c, s), s.rnow).0 == Err(Refusal(c, s).value, true)
  {
    hide DecodeHello, EncodeHello, HelloBody, Gate, Punctual, Exchanges, OwnHello;
    HelloUnderstood(c, s);
    HelloSays(c, s.icfg, s.ic, s.inow);
    GateIff(s.rst.cache, Replay.Key(c.hash(c.sigPub(s.icfg.sk)), s.ic.random), s.inow, s.rnow);
  }

  /** The initiator's run when this is all it reads. */
  function Reading(c: Crypto, s: Setting, back: seq<Frame>): Initiator
  {
    Initiator(s.icfg, s.ic, s.inow, 4, Envelopes(back))
  }

  lemma {:induction false} AlertTaken(e: Error, tail: Bytes, want: byte)
    requires want != FRAME_ALERT && OnWire(e)
    ensures Expect(Envelope(AlertFrame(e)) + tail, want) == (Err(e, false), tail) && Sendable(AlertFrame(e))
  {
    hide Envelope, ReadFrame, DecodeAlert, ErrorForAlert, AlertForError;
    AlertRoundTrip(e, []);
    AlertShort(e);
    EnvelopeRoundTrip(AlertFrame(e), tail);
  }

  lemma {:induction false} AlertShort(e: Error)
    ensures Sendable(AlertFrame(e))
  {
    hide BE;
  }

  /** A responder that refuses the HELLO ends for that reason with one ALERT, and the initiator for the same. */
  lemma {:induction false} RefusalHeard(c: Crypto, s: Setting)
    requires Ready(c, s) && Understood(s) && OutputLengths(c) && Refusal(c, s).Some?
    ensures var (o, e) := (RespOf(c, HonestResp(c, s)), Refusal(c, s).value);
      && o.result == Err(e, true) && o.frames == [AlertFrame(e)] && o.st.store == s.rst.store
      && InitOf(c, Reading(c, s, o.frames)).result == Err(e, false)
  {
    hide CheckHello, HelloBody, Exchanges, Refusal, OutputLengths;
    HelloUnderstood(c, s);
    HelloRefused(c, s);
    RefusedRun(c, s, Refusal(c, s).value);
    RefusalNamed(c, s);
    AlertRead(c, s, Refusal(c, s).value);
  }

  lemma {:induction false} RefusalNamed(c: Crypto, s: Setting)
    requires Refusal(c, s).Some?
    ensures OnWire(Refusal(c, s).value)
  {
    hide Punctual;
  }

  lemma {:induction false} RefusedRun(c: Crypto, s: Setting, e: Error)
    requires CheckHello(c, s.rcfg, s.rst.cache, HelloBody(c, s), s.rnow).0 == Err(e, true)
    requires Sendable(Frame(FRAME_HELLO, HelloBody(c, s))) && (s.rcfg.strict ==> s.rst.cache.Some?)
    ensures var o := RespOf(c, HonestResp(c, s));
      o.result == Err(e, true) && o.frames == [AlertFrame(e)] && o.st.store == s.rst.store
  {
    hide CheckHello, Envelope, Envelopes, ReadFrame, HelloBody, AuthFrame, KemInitBody, Sendable, RespAuth, RespView,
         Expect, RespResume, Exchange, AlertFrame;
    var f := Forth(c, s);
    var inbox := MAGIC + Envelopes(f);
    assert inbox[..4] == MAGIC && inbox[4..] == Envelopes(f);
    assert f == [f[0], f[1]] + [f[2]];
    TwoEnvelopes(f[0], f[1], [f[2]]);
    EnvelopeRoundTrip(f[0], Envelope(f[1]) + Envelopes([f[2]]));
  }

  lemma {:induction false} AlertRead(c: Crypto, s: Setting, e: Error)
    requires Ready(c, s) && Understood(s) && OutputLengths(c) && OnWire(e)
    ensures InitOf(c, Reading(c, s, [AlertFrame(e)])).result == Err(e, false)
  {
    hide EncodeHello, OwnHello, HelloBody, Expect, Envelope, Envelopes, AlertFrame, InitResume, InitView, Exchanges,
         InitAuth;
    HelloUnderstood(c, s);
    LoneEnvelope(AlertFrame(e));
    AlertTaken(e, [], FRAME_KEM_REPLY);
  }

  /** An initiator that finds another key than it expects says so, and the responder ends for the same reason. */
  lemma {:induction false} WrongKeyHeard(c: Crypto, s: Setting)
    requires Ready(c, s) && OutputLengths(c) && SignCorrect(c) && ExchangeCorrect(c)
    requires Configured(c, Unpinned(s)) && !Expects(c, s.icfg, s.rcfg)
    ensures var o := InitOf(c, HonestInit(c, s));
      && o.result == Err(VmIdentityMismatch, true)
      && o.frames == [Frame(FRAME_HELLO, HelloBody(c, s)), Frame(FRAME_KEM_INIT, KemInitBody(c, s.ic)),
                      AlertFrame(VmIdentityMismatch)]
      && RespOf(c, HonestResp(c, s).(inbox := InitBytes(o))).result == Err(VmIdentityMismatch, false)
  {
    hide InitOf, RespOf, OutputLengths, SignCorrect, ExchangeCorrect, Admissible, HelloBody, KemInitBody, AlertFrame,
         Envelopes, Exchange, Ready, Configured, Expects, HonestInit, OwnHello, EncodeHello, InitView, RespView,
         CheckHello, Sendable, Suite;
    var u := Unpinned(s);
    UnpinnedReady(c, s);
    AdmissibleIff(c, u);
    AdmissibleSuite(c, s);
    HelloAdmitted(c, u);
    SameExchange(c, u);
    SameOffer(c, s);
    WrongKeyInit(c, s);
    WrongKeyResp(c, s);
  }

  lemma {:induction false} UnpinnedReady(c: Crypto, s: Setting)
    requires Ready(c, s)
    ensures Ready(c, Unpinned(s))
  {
  }

  lemma {:induction false} AdmissibleSuite(c: Crypto, s: Setting)
    requires Admissible(c, Unpinned(s))
    ensures Suite(s.icfg) == SUITE_V1
  {
    hide Gate;
  }

  lemma {:induction false} WrongKeyInit(c: Crypto, s: Setting)
    requires Ready(c, s) && Suite(s.icfg) == SUITE_V1 && !Expects(c, s.icfg, s.rcfg)
    requires EncodeHello(OwnHello(c, Unpinned(s).icfg, s.ic, s.inow)) == Some(HelloBody(c, s))
    requires Sendable(Frame(FRAME_HELLO, HelloBody(c, s))) && Sendable(Frame(FRAME_KEM_INIT, KemInitBody(c, s.ic)))
    requires Sendable(Frame(FRAME_KEM_REPLY, Exchange(c, s).script.reply))
    requires InitView(c, Unpinned(s).icfg, s.ic, HelloBody(c, s), Exchange(c, s).script.reply) == Ok(Exchange(c, s))
    requires Exchange(c, s).script.pkR == c.sigPub(s.rcfg.sk)
    ensures var o := InitOf(c, HonestInit(c, s));
      && o.magic && o.result == Err(VmIdentityMismatch, true)
      && o.frames == [Frame(FRAME_HELLO, HelloBody(c, s)), Frame(FRAME_KEM_INIT, KemInitBody(c, s.ic)),
                      AlertFrame(VmIdentityMismatch)]
  {
    hide EncodeHello, OwnHello, HelloBody, Expect, Envelope, Envelopes, AlertFrame, InitResume, InitView, Exchanges,
         InitAuth, Exchange, KemInitBody, Sendable, AuthFrame;
    var b := Back(c, s);
    assert b == [b[0], b[1]] + [];
    TwoEnvelopes(b[0], b[1], []);
    ExpectWhole(b[0], Envelope(b[1]) + Envelopes([]), FRAME_KEM_REPLY);
    SameHello(c, s);
    OtherKey(c, s, HelloBody(c, s), Exchange(c, s).script.reply);
  }

  lemma {:induction false} SameHello(c: Crypto, s: Setting)
    ensures OwnHello(c, Unpinned(s).icfg, s.ic, s.inow) == OwnHello(c, s.icfg, s.ic, s.inow)
  {
  }

  lemma {:induction false} OtherKey(c: Crypto, s: Setting, hello: Bytes, reply: Bytes)
    requires InitView(c, Unpinned(s).icfg, s.ic, hello, reply).Ok? && s.icfg.expected.Some?
    requires s.icfg.expected.value != c.hash(InitView(c, Unpinned(s).icfg, s.ic, hello, reply).value.script.pkR)
    ensures InitView(c, s.icfg, s.ic, hello, reply) == Err(VmIdentityMismatch, true)
  {
    hide DecodeKemReply, KemInitBody;
  }

  lemma {:induction false} WrongKeyResp(c: Crypto, s: Setting)
    requires Admissible(c, Unpinned(s)) && OutputLengths(c) && SignCorrect(c) && ExchangeCorrect(c)
    ensures RespOf(c, HonestResp(c, s).(inbox := MAGIC + Envelopes(
              [Frame(FRAME_HELLO, HelloBody(c, s)), Frame(FRAME_KEM_INIT, KemInitBody(c, s.ic)),
               AlertFrame(VmIdentityMismatch)]))).result == Err(VmIdentityMismatch, false)
  {
    hide OutputLengths, SignCorrect, ExchangeCorrect, Envelope, Envelopes, HelloBody, KemInitBody, Exchange, RespView,
         CheckAuth, MakeAuth, Expect, AuthFrame, Sendable, Gate, KeysOf, CheckHello, ReadFrame, AcceptsSuite, Issued,
         RespResume, AlertFrame, OwnHello;
    var u := Unpinned(s);
    HelloAdmitted(c, u);
    SameExchange(c, u);
    SameOffer(c, s);
    SameHello(c, s);
    var v := Exchange(c, s);
    OwnAuthChecks(c, s.rcfg.sk, v, ROLE_R, s.rc.sig);
    AuthFrameIs(c, s.rcfg.sk, v, ROLE_R, s.rc.sig);
    var f := [Frame(FRAME_HELLO, HelloBody(c, s)), Frame(FRAME_KEM_INIT, KemInitBody(c, s.ic)),
              AlertFrame(VmIdentityMismatch)];
    assert f == [f[0], f[1]] + [f[2]];
    TwoEnvelopes(f[0], f[1], [f[2]]);
    LoneEnvelope(f[2]);
    var inbox := MAGIC + Envelopes(f);
    assert inbox[..4] == MAGIC && inbox[4..] == Envelopes(f);
    EnvelopeRoundTrip(f[0], Envelope(f[1]) + Envelopes([f[2]]));
    ExpectWhole(f[1], Envelopes([f[2]]), FRAME_KEM_INIT);
    AlertTaken(VmIdentityMismatch, [], FRAME_AUTH);
  }

  // ---- resumed runs ----

  /** The cached key is unexpired, and neither coins nor clocks stand in the way. */
  predicate ReadyToResume(c: Crypto, s: Setting, p: ClientPsk)
  {
    && s.icfg.resume == Some(p) && p.until > s.inow && |p.id| == 16
    && |s.ic.random| == RAND_LEN && GoodClock(s.inow) && GoodClock(s.rnow)
    && c.dh(s.rc.xSk, c.dhPub(s.ic.xSk)).Some?
  }

  /** The responder's store has the key, unexpired; suite, mode and replay gate as for a full run. */
  predicate ConfiguredToResume(c: Crypto, s: Setting, p: ClientPsk)
  {
    && SameSuite(s.icfg, s.rcfg) && Strict(s.icfg, s.rcfg, s.rst)
    && Punctual(s.rst.cache, Replay.Key(c.hash(p.id), s.ic.random), s.inow, s.rnow)
    && s.rst.store.Some? && p.id in s.rst.store.value && s.rnow <= s.rst.store.value[p.id].expires
  }

  function HelloPskFrame(c: Crypto, s: Setting, p: ClientPsk): Frame
  {
    Frame(FRAME_HELLO_PSK, EncodeHelloPsk(HelloPskOf(s.icfg, c, s.ic, p.id, s.inow)))
  }

  function ReplyFrame(c: Crypto, s: Setting): Frame
  {
    Frame(FRAME_KEM_REPLY, c.dhPub(s.rc.xSk))
  }

  /** The two resumed runs, each reading what the other writes. */
  function ResumedInit(c: Crypto, s: Setting): Initiator
  {
    Initiator(s.icfg, s.ic, s.inow, 2, Envelopes([ReplyFrame(c, s)]))
  }

  function ResumedResp(c: Crypto, s: Setting, p: ClientPsk): Responder
  {
    Responder(s.rcfg, s.rc, s.rst, s.rnow, 1, MAGIC + Envelopes([HelloPskFrame(c, s, p)]))
  }

  lemma {:induction false} HelloPskSays(c: Crypto, cfg: InitCfg, coins: InitCoins, id: Bytes, now: int)
    requires GoodClock(now)
    ensures var h := HelloPskOf(cfg, c, coins, id, now);
      && h.timestamp == now && h.random == coins.random && h.pskId == id && h.x == c.dhPub(coins.xSk)
      && h.suite == (if cfg.suite == 0x00 then 0x01 else cfg.suite)
      && h.pqMode == (if cfg.pqMode == 0x00 && cfg.strict then 0x02 else cfg.pqMode)
  {
  }

  lemma {:induction false} HelloPskArrives(c: Crypto, s: Setting, p: ClientPsk)
    requires ReadyToResume(c, s, p) && OutputLengths(c)
    ensures DecodeHelloPsk(HelloPskFrame(c, s, p).body) == Some(HelloPskOf(s.icfg, c, s.ic, p.id, s.inow))
    ensures Sendable(HelloPskFrame(c, s, p))
  {
    hide BE, DecodeHelloPsk;
    PowFacts();
    HelloPskRoundTrip(HelloPskOf(s.icfg, c, s.ic, p.id, s.inow));
  }

  /** The checks on a HELLO_PSK, from the settings. */
  lemma {:induction false} HelloPskLetIn(c: Crypto, s: Setting, p: ClientPsk)
    requires ReadyToResume(c, s, p) && OutputLengths(c) && Suite(s.icfg) == SUITE_V1
    ensures CheckHelloPsk(c, s.rcfg, s.rst, HelloPskFrame(c, s, p).body, s.rnow).0.Ok?
              && (s.rcfg.strict ==> s.rst.cache.Some?)
            <==> ConfiguredToResume(c, s, p)
    ensures CheckHelloPsk(c, s.rcfg, s.rst, HelloPskFrame(c, s, p).body, s.rnow).0.Ok? ==>
      CheckHelloPsk(c, s.rcfg, s.rst, HelloPskFrame(c, s, p).body, s.rnow).0.value.0
        == HelloPskOf(s.icfg, c, s.ic, p.id, s.inow)
  {
    hide Gate, Punctual, DecodeHelloPsk, EncodeHelloPsk, OutputLengths, HelloPskOf;
    HelloPskArrives(c, s, p);
    HelloPskSays(c, s.icfg, s.ic, p.id, s.inow);
    GateIff(s.rst.cache, Replay.Key(c.hash(p.id), s.ic.random), s.inow, s.rnow);
  }

  lemma {:induction false} RespResumes(c: Crypto, s: Setting, p: ClientPsk)
    requires ReadyToResume(c, s, p) && OutputLengths(c) && Suite(s.icfg) == SUITE_V1
    ensures RespOf(c, ResumedResp(c, s, p)).result.Ok? <==> ConfiguredToResume(c, s, p)
    ensures ConfiguredToResume(c, s, p) ==> RespOf(c, ResumedResp(c, s, p)).frames == [ReplyFrame(c, s)]
  {
    hide CheckHelloPsk, Envelope, Envelopes, ReadFrame, HelloPskFrame, ConfiguredToResume, DeriveResumed, H2Psk, Issued,
         RespFull, HelloPskOf;
    var f := HelloPskFrame(c, s, p);
    HelloPskArrives(c, s, p);
    HelloPskSays(c, s.icfg, s.ic, p.id, s.inow);
    HelloPskLetIn(c, s, p);
    assert f.typ == FRAME_HELLO_PSK by { PskTyped(c, s, p); }
    LoneEnvelope(f);
    var inbox := MAGIC + Envelopes([f]);
    assert inbox[..4] == MAGIC && inbox[4..] == Envelope(f) + [];
    EnvelopeRoundTrip(f, []);
  }

  lemma {:induction false} PskTyped(c: Crypto, s: Setting, p: ClientPsk)
    ensures HelloPskFrame(c, s, p).typ == FRAME_HELLO_PSK
  {
  }

  lemma {:induction false} InitResumes(c: Crypto, s: Setting, p: ClientPsk)
    requires ReadyToResume(c, s, p) && OutputLengths(c) && ExchangeCorrect(c)
    ensures InitOf(c, ResumedInit(c, s)).result.Ok? <==> Suite(s.icfg) == SUITE_V1
    ensures Suite(s.icfg) == SUITE_V1 ==>
      InitBytes(InitOf(c, ResumedInit(c, s))) == MAGIC + Envelopes([HelloPskFrame(c, s, p)])
  {
    hide Envelope, Envelopes, ReadFrame, EncodeHelloPsk, HelloPskOf, DeriveResumed, H2Psk, InitFull;
    var f := ReplyFrame(c, s);
    HelloPskArrives(c, s, p);
    LoneEnvelope(f);
    EnvelopeRoundTrip(f, []);
    assert c.dh(s.ic.xSk, c.dhPub(s.rc.xSk)) == c.dh(s.rc.xSk, c.dhPub(s.ic.xSk));
  }

  /**
   Exactly when an honest resumption goes through, from what the two ends are set up with; and if both
   hold the same key under its id, they end with one set of keys and the identities they had.
   */
  lemma {:induction false} ResumesIff(c: Crypto, s: Setting, p: ClientPsk)
    requires ReadyToResume(c, s, p) && OutputLengths(c) && ExchangeCorrect(c)
    ensures BothFinish(c, ResumedInit(c, s), ResumedResp(c, s, p)) <==> ConfiguredToResume(c, s, p)
    ensures ConfiguredToResume(c, s, p) ==> FaithfulChannel(c, ResumedInit(c, s), ResumedResp(c, s, p))
    ensures ConfiguredToResume(c, s, p) && s.rst.store.value[p.id].psk == p.psk ==>
      var (a, b) := (InitOf(c, ResumedInit(c, s)).result.value, RespOf(c, ResumedResp(c, s, p)).result.value);
      a.keys == b.keys && a.peerId == p.peerId && b.peerId == s.rst.store.value[p.id].clientId
  {
    hide InitOf, RespOf, OutputLengths, ExchangeCorrect, Envelopes, HelloPskFrame, ReplyFrame, Punctual, InitBytes;
    InitResumes(c, s, p);
    if Suite(s.icfg) == SUITE_V1 {
      RespResumes(c, s, p);
      if ConfiguredToResume(c, s, p) && s.rst.store.value[p.id].psk == p.psk {
        ResumptionAgrees(c, ResumedInit(c, s), ResumedResp(c, s, p), p);
      }
    }
  }

  /** Both ends still hold what the full handshake left them: the key the session caches, and the issued entry. */
  predicate KeepsKey(c: Crypto, i: Initiator, r: Responder, made: int, s: Setting)
  {
    var (a, store) := (InitOf(c, i).result, RespOf(c, r).st.store);
    && a.Ok? && store.Some? && s.rst.store.Some?
    && s.icfg.resume == Some(MakeClientPsk(c, a.value.keys.psk, a.value.peerId, made))
    && var id := MakeClientPsk(c, a.value.keys.psk, a.value.peerId, made).id;
       id in store.value && id in s.rst.store.value && s.rst.store.value[id] == store.value[id]
  }

  /**
   After any full handshake over a faithful channel, the key the session caches resumes for an hour: at
   both ends' clocks, with suites and modes that match and a replay gate that admits it, the next run
   finishes at both ends with one set of keys, and each end takes the other for who it was before.
   */
  lemma {:induction false} KeyResumesForAnHour(c: Crypto, i: Initiator, r: Responder, made: int, s: Setting)
    requires OutputLengths(c) && ExchangeCorrect(c) && |i.coins.random| == RAND_LEN
    requires FaithfulChannel(c, i, r) && BothFinish(c, i, r) && InitOf(c, i).view.Some? && r.st.store.Some?
    requires KeepsKey(c, i, r, made, s)
    requires s.inow < made + 3_600_000_000_000 && s.rnow <= r.now + 3_600_000_000_000
    requires |s.ic.random| == RAND_LEN && GoodClock(s.inow) && GoodClock(s.rnow)
    requires c.dh(s.rc.xSk, c.dhPub(s.ic.xSk)).Some?
    requires SameSuite(s.icfg, s.rcfg) && Strict(s.icfg, s.rcfg, s.rst)
    requires Punctual(s.rst.cache, Replay.Key(c.hash(s.icfg.resume.value.id), s.ic.random), s.inow, s.rnow)
    ensures var p := s.icfg.resume.value;
      && BothFinish(c, ResumedInit(c, s), ResumedResp(c, s, p))
      && var (a, b) := (InitOf(c, ResumedInit(c, s)).result.value, RespOf(c, ResumedResp(c, s, p)).result.value);
         && a.keys == b.keys && a.peerId == InitOf(c, i).result.value.peerId
         && b.peerId == RespOf(c, r).result.value.peerId
  {
    hide InitOf, RespOf, OutputLengths, ExchangeCorrect, FaithfulChannel, Punctual, PskId, ResumedInit, ResumedResp,
         CacheAdmits, Strict, SameSuite;
    var p := s.icfg.resume.value;
    FullHandshakeAgrees(c, i, r);
    IdLength(c, InitOf(c, i).result.value.keys.psk);
    PartnersShare(c, i, r);
    ResumesIff(c, s, p);
  }

  lemma {:induction false} IdLength(c: Crypto, psk: Bytes)
    requires OutputLengths(c)
    ensures |PskId(c, psk)| == 16
  {
  }

  lemma {:induction false} PartnersShare(c: Crypto, i: Initiator, r: Responder)
    requires Partners(c, i, r) && BothFinish(c, i, r)
    ensures InitOf(c, i).result.value.keys == RespOf(c, r).result.value.keys
  {
    hide InitOf, RespOf;
  }

  /** Why a responder turns a HELLO_PSK away. */
  function ResumeRefusal(c: Crypto, s: Setting, p: ClientPsk): Option<Error>
  {
    if s.rcfg.accepted != [] && 0x01 !in s.rcfg.accepted then Some(UnsupportedSuite)
    else if s.rcfg.strict && !(s.icfg.strict || s.icfg.pqMode != 0x00) then Some(DowngradeRefused)
    else if !Punctual(s.rst.cache, Replay.Key(c.hash(p.id), s.ic.random), s.inow, s.rnow) then Some(ReplayDetected)
    else if s.rst.store.None? || p.id !in s.rst.store.value || s.rnow > s.rst.store.value[p.id].expires then
      Some(PskUnknown)
    else None
  }

  lemma {:induction false} HelloPskRefused(c: Crypto, s: Setting, p: ClientPsk)
    requires ReadyToResume(c, s, p) && OutputLengths(c) && Suite(s.icfg) == SUITE_V1 && ResumeRefusal(c, s, p).Some?
    ensures CheckHelloPsk(c, s.rcfg, s.rst, HelloPskFrame(c, s, p).body, s.rnow).0
              == Err(ResumeRefusal(c, s, p).value, true)
  {
    hide Gate, Punctual, DecodeHelloPsk, EncodeHelloPsk, OutputLengths, HelloPskOf;
    HelloPskArrives(c, s, p);
    HelloPskSays(c, s.icfg, s.ic, p.id, s.inow);
    GateIff(s.rst.cache, Replay.Key(c.hash(p.id), s.ic.random), s.inow, s.rnow);
  }

  /** And a refused resumption ends both runs for that reason, one ALERT between them. */
  lemma {:induction false} ResumeRefusalHeard(c: Crypto, s: Setting, p: ClientPsk)
    requires ReadyToResume(c, s, p) && OutputLengths(c) && Suite(s.icfg) == SUITE_V1 && ResumeRefusal(c, s, p).Some?
    requires s.rcfg.strict ==> s.rst.cache.Some?
    ensures var (o, e) := (RespOf(c, ResumedResp(c, s, p)), ResumeRefusal(c, s, p).value);
      && o.result == Err(e, true) && o.frames == [AlertFrame(e)]
      && InitOf(c, Reading(c, s, o.frames)).result == Err(e, false)
  {
    hide CheckHelloPsk, OutputLengths, HelloPskFrame, ResumeRefusal, ReadyToResume;
    HelloPskRefused(c, s, p);
    HelloPskArrives(c, s, p);
    PskTyped(c, s, p);
    ResumeRefusedRun(c, s, p, ResumeRefusal(c, s, p).value);
    ResumeRefusalNamed(c, s, p);
    ResumeAlertRead(c, s, p, ResumeRefusal(c, s, p).value);
  }

  lemma {:induction false} ResumeRefusalNamed(c: Crypto, s: Setting, p: ClientPsk)
    requires ResumeRefusal(c, s, p).Some?
    ensures OnWire(ResumeRefusal(c, s, p).value)
  {
    hide Punctual;
  }

  lemma {:induction false} ResumeRefusedRun(c: Crypto, s: Setting, p: ClientPsk, e: Error)
    requires CheckHelloPsk(c, s.rcfg, s.rst, HelloPskFrame(c, s, p).body, s.rnow).0 == Err(e, true)
    requires Sendable(HelloPskFrame(c, s, p)) && HelloPskFrame(c, s, p).typ == FRAME_HELLO_PSK
    requires s.rcfg.strict ==> s.rst.cache.Some?
    ensures var o := RespOf(c, ResumedResp(c, s, p)); o.result == Err(e, true) && o.frames == [AlertFrame(e)]
  {
    hide CheckHelloPsk, Envelope, Envelopes, ReadFrame, HelloPskFrame, Sendable, DeriveResumed, H2Psk, Issued, RespFull,
         AlertFrame;
    var f := HelloPskFrame(c, s, p);
    LoneEnvelope(f);
    var inbox := MAGIC + Envelopes([f]);
    assert inbox[..4] == MAGIC && inbox[4..] == Envelope(f) + [];
    EnvelopeRoundTrip(f, []);
  }

  lemma {:induction false} ResumeAlertRead(c: Crypto, s: Setting, p: ClientPsk, e: Error)
    requires ReadyToResume(c, s, p) && OutputLengths(c) && Suite(s.icfg) == SUITE_V1 && OnWire(e)
    ensures InitOf(c, Reading(c, s, [AlertFrame(e)])).result == Err(e, false)
  {
    hide Envelope, Envelopes, ReadFrame, EncodeHelloPsk, HelloPskOf, InitFull, DecodeAlert, ErrorForAlert,
         AlertForError, H2Psk, DeriveResumed;
    HelloPskArrives(c, s, p);
    AlertRoundTrip(e, []);
    AlertShort(e);
    LoneEnvelope(AlertFrame(e));
    EnvelopeRoundTrip(AlertFrame(e), []);
  }
}
