/**
 Handshakes over a faithful channel - each end reads a prefix of what the other wrote - and chains of
 resumptions begun by one full handshake.
 */
module Resumption {
  import opened ByteStrings
  import opened Frames
  import opened Primitives
  import opened Transcripts
  import opened Handshake
  import opened Agreement
  import PskStores

  predicate FaithfulChannel(c: Crypto, i: Initiator, r: Responder)
  {
    r.inbox <= InitBytes(InitOf(c, i)) && i.inbox <= Envelopes(RespOf(c, r).frames)
  }

  predicate BothFinish(c: Crypto, i: Initiator, r: Responder)
  {
    InitOf(c, i).result.Ok? && RespOf(c, r).result.Ok?
  }

  // ---- reading what the other end wrote ----

  lemma {:induction false} ReadPrefix(f: Frame, tail: Bytes, inbox: Bytes)
    requires Sendable(f) && inbox <= Envelope(f) + tail
    ensures ReadFrame(inbox).Short? || (ReadFrame(inbox).Got? && ReadFrame(inbox).frame == f
      && ReadFrame(inbox).rest <= tail)
  {
    hide Envelope, ReadFrame;
    PartialFrame(f, tail, |inbox|);
    assert inbox == (Envelope(f) + tail)[..|inbox|];
  }

  lemma {:induction false} ExpectPrefix(f: Frame, tail: Bytes, inbox: Bytes, want: byte)
    requires Sendable(f) && inbox <= Envelope(f) + tail && Expect(inbox, want).0.Ok?
    ensures Expect(inbox, want).0.value == f.body && Expect(inbox, want).1 <= tail
  {
    hide Envelope, ReadFrame;
    ReadPrefix(f, tail, inbox);
  }

  lemma {:induction false} TwoEnvelopes(f: Frame, g: Frame, rest: seq<Frame>)
    ensures Envelopes([f, g] + rest) == Envelope(f) + (Envelope(g) + Envelopes(rest))
  {
    hide Envelope;
    var all := [f, g] + rest;
    assert all[1..] == [g] + rest && all[1..][1..] == rest;
  }

  // ---- the full handshake ----

  /** What a finished full initiator wrote and read. */
  lemma {:induction false} InitTrace(c: Crypto, i: Initiator)
    requires InitOf(c, i).result.Ok? && InitOf(c, i).view.Some?
    ensures var (o, s) := (InitOf(c, i), InitOf(c, i).view.value.script);
      && o.magic && |o.frames| == 3
      && o.frames[0] == Frame(FRAME_HELLO, s.hello) && o.frames[1] == Frame(FRAME_KEM_INIT, s.init)
      && Sendable(o.frames[0]) && Sendable(o.frames[1])
      && EncodeHello(OwnHello(c, i.cfg, i.coins, i.now)) == Some(s.hello)
      && Expect(i.inbox, FRAME_KEM_REPLY).0 == Ok(s.reply)
      && s.suite == Suite(i.cfg) && s.schemes == Schemes(i.cfg) && s.init == KemInitBody(c, i.coins)
  {
    hide InitView, CheckAuth, MakeAuth, KeysOf, Expect, EncodeHello, OwnHello, KemInitBody, EncodeHelloPsk, ReadFrame,
         InitResumed, Sendable;
    var hello := EncodeHello(OwnHello(c, i.cfg, i.coins, i.now)).value;
    var reply := Expect(i.inbox, FRAME_KEM_REPLY).0.value;
    InitViewHolds(c, i.cfg, i.coins, hello, reply);
    ViewScript(c, i.cfg, i.coins, hello, reply);
  }

  lemma {:induction false} ViewScript(c: Crypto, cfg: InitCfg, coins: InitCoins, hello: Bytes, reply: Bytes)
    requires InitView(c, cfg, coins, hello, reply).Ok?
    ensures var s := InitView(c, cfg, coins, hello, reply).value.script;
      s.suite == Suite(cfg) && s.schemes == Schemes(cfg) && s.init == KemInitBody(c, coins)
  {
    hide KemInitBody, DecodeKemReply;
  }

  /** What a finished full responder wrote, once its first frame is known to be this HELLO. */
  lemma {:induction false} RespTrace(c: Crypto, r: Responder, hello: Bytes, rest: Bytes)
    requires RespOf(c, r).result.Ok? && |r.inbox| >= 4
    requires ReadFrame(r.inbox[4..]) == Got(Frame(FRAME_HELLO, hello), rest)
    ensures var o := RespOf(c, r);
      && o.view.Some? && |o.frames| == 2
      && o.frames[0] == Frame(FRAME_KEM_REPLY, o.view.value.script.reply) && Sendable(o.frames[0])
      && o.view.value.script.hello == hello
      && Expect(rest, FRAME_KEM_INIT).0 == Ok(o.view.value.script.init)
      && DecodeHello(hello).Some? && o.view.value.script.schemes == DecodeHello(hello).value.schemes
      && o.st.store == Issued(c, r.st, o.result.value.keys.psk, o.result.value.peerId, r.now).store
  {
    hide RespView, CheckAuth, MakeAuth, KeysOf, Expect, ReadFrame, CheckHello, CheckHelloPsk, DecodeHello, Sendable;
    CheckedHello(c, r, hello);
    var h := CheckHello(c, r.cfg, r.st.cache, hello, r.now).0.value;
    var init := Expect(rest, FRAME_KEM_INIT).0.value;
    RespViewHolds(c, r.cfg, r.coins, h, hello, init);
    RespScript(c, r.cfg, r.coins, h, hello, init);
  }

  lemma {:induction false} RespScript(c: Crypto, cfg: RespCfg, coins: RespCoins, h: Hello, hello: Bytes, init: Bytes)
    requires RespView(c, cfg, coins, h, hello, init).Ok?
    ensures RespView(c, cfg, coins, h, hello, init).value.script.schemes == h.schemes
  {
    hide DecodeKemInit, EncodeKemReply;
  }

  lemma {:induction false} HelloArrives(c: Crypto, i: Initiator, hello: Bytes)
    requires OutputLengths(c) && |i.coins.random| == RAND_LEN
    requires EncodeHello(OwnHello(c, i.cfg, i.coins, i.now)) == Some(hello) && |hello| <= MAX_BODY
    requires DecodeHello(hello).Some?
    ensures DecodeHello(hello).value == OwnHello(c, i.cfg, i.coins, i.now)
  {
    hide DecodeHello, BE;
    PowFacts();
    HelloRoundTrip(OwnHello(c, i.cfg, i.coins, i.now));
  }

  /**
   A full handshake over a faithful channel: the two runs are partners, the responder's identity is
   what the initiator records and the other way round, and one key is issued to the initiator's id.
   */
  lemma {:induction false} FullHandshakeAgrees(c: Crypto, i: Initiator, r: Responder)
    requires OutputLengths(c) && ExchangeCorrect(c) && |i.coins.random| == RAND_LEN
    requires FaithfulChannel(c, i, r) && BothFinish(c, i, r) && InitOf(c, i).view.Some?
    ensures Partners(c, i, r)
    ensures RespOf(c, r).st.store ==
      Issued(c, r.st, RespOf(c, r).result.value.keys.psk, RespOf(c, r).result.value.peerId, r.now).store
  {
    hide OutputLengths, ExchangeCorrect, InitOf, RespOf, Expect, ReadFrame, Envelope, Envelopes, EncodeHello,
         DecodeHello, OwnHello, Sendable, Issued, KemInitBody, InitHolds, RespHolds, Partners, Verifies, Message,
         KeysOf;
    InitTrace(c, i);
    var (io, v) := (InitOf(c, i), InitOf(c, i).view.value);
    var f, g := io.frames[0], io.frames[1];
    assert io.frames == [f, g] + io.frames[2..];
    TwoEnvelopes(f, g, io.frames[2..]);
    var tail := Envelope(g) + Envelopes(io.frames[2..]);
    FirstFrame(c, i, r, f, tail);
    var in1 := ReadFrame(r.inbox[4..]).rest;
    RespTrace(c, r, v.script.hello, in1);
    var (ro, u) := (RespOf(c, r), RespOf(c, r).view.value);
    ExpectPrefix(g, Envelopes(io.frames[2..]), in1, FRAME_KEM_INIT);
    var back := ro.frames[0];
    assert ro.frames == [back, ro.frames[1]] + [];
    TwoEnvelopes(back, ro.frames[1], []);
    ExpectPrefix(back, Envelope(ro.frames[1]) + Envelopes([]), i.inbox, FRAME_KEM_REPLY);
    assert |v.script.hello| <= MAX_BODY by { SendableBody(f); }
    HelloArrives(c, i, v.script.hello);
    InitSigns(c, i);
    RespSigns(c, r);
    ScriptsEqual(c, i, v, r, u);
    SameSecrets(c, i.cfg, i.coins, v, r.cfg, r.coins, u);
    SameViewPartners(c, i, r);
  }

  lemma {:induction false} SendableBody(f: Frame)
    requires Sendable(f)
    ensures |f.body| <= MAX_BODY
  {
  }

  lemma {:induction false} ScriptsEqual(c: Crypto, i: Initiator, v: View, r: Responder, u: View)
    requires InitHolds(c, i.cfg, i.coins, v) && RespHolds(c, r.cfg, r.coins, u) && OutputLengths(c)
    requires v.script.hello == u.script.hello && v.script.init == u.script.init && v.script.reply == u.script.reply
    requires DecodeHello(v.script.hello) == Some(OwnHello(c, i.cfg, i.coins, i.now))
    requires v.script.schemes == Schemes(i.cfg)
    requires u.script.schemes == DecodeHello(u.script.hello).value.schemes
    ensures v.script == u.script
  {
    hide DecodeHello, DecodeKemInit;
    var ct := c.encap(DecodeKemInit(u.script.init).value.kem, r.coins.kem).value.0;
    KemReplyRoundTrip(KemReply(c.dhPub(r.coins.xSk), ct, u.script.pkR));
  }

  /** The responder's first frame is the initiator's. */
  lemma {:induction false} FirstFrame(c: Crypto, i: Initiator, r: Responder, f: Frame, tail: Bytes)
    requires FaithfulChannel(c, i, r) && RespOf(c, r).result.Ok?
    requires InitOf(c, i).magic && Envelopes(InitOf(c, i).frames) == Envelope(f) + tail && Sendable(f)
    ensures |r.inbox| >= 4 && ReadFrame(r.inbox[4..]).Got?
    ensures ReadFrame(r.inbox[4..]).frame == f && ReadFrame(r.inbox[4..]).rest <= tail
  {
    hide InitOf, Envelope, ReadFrame, Envelopes, RespFull, RespResume, DecodeAlert, Sendable;
    assert InitBytes(InitOf(c, i))[4..] == Envelope(f) + tail;
    assert r.inbox[4..] <= Envelope(f) + tail;
    ReadPrefix(f, tail, r.inbox[4..]);
  }

  // ---- one resumption ----

  predicate Resumes(i: Initiator, p: ClientPsk)
  {
    i.cfg.resume == Some(p) && p.until > i.now
  }

  lemma {:induction false} ResumeInitTrace(c: Crypto, i: Initiator, p: ClientPsk)
    requires Resumes(i, p) && InitOf(c, i).result.Ok?
    ensures var o, hello := InitOf(c, i), EncodeHelloPsk(HelloPskOf(i.cfg, c, i.coins, p.id, i.now));
      && o.magic && o.frames == [Frame(FRAME_HELLO_PSK, hello)] && Sendable(o.frames[0])
      && ReadFrame(i.inbox).Got? && |ReadFrame(i.inbox).frame.body| == X_LEN
      && c.dh(i.coins.xSk, ReadFrame(i.inbox).frame.body).Some?
      && o.result.value.peerId == p.peerId
      && var eph := ReadFrame(i.inbox).frame.body;
      && o.result.value.keys ==
           DeriveResumed(c, H2Psk(c, Suite(i.cfg), hello, eph), c.dh(i.coins.xSk, eph).value, p.psk)
  {
    hide EncodeHelloPsk, HelloPskOf, ReadFrame, InitFull, H2Psk, DeriveResumed, DecodeAlert, Sendable;
  }

  lemma {:induction false} ResumeRespTrace(c: Crypto, r: Responder, h: HelloPsk, hello: Bytes, rest: Bytes)
    requires RespOf(c, r).result.Ok? && |r.inbox| >= 4 && DecodeHelloPsk(hello) == Some(h)
    requires ReadFrame(r.inbox[4..]) == Got(Frame(FRAME_HELLO_PSK, hello), rest)
    ensures var (o, eph) := (RespOf(c, r), c.dhPub(r.coins.xSk));
      && o.frames == [Frame(FRAME_KEM_REPLY, eph)] && Sendable(o.frames[0])
      && c.dh(r.coins.xSk, h.x).Some?
      && r.st.store.Some? && h.pskId in r.st.store.value
      && var e := r.st.store.value[h.pskId];
      && o.result.value.peerId == e.clientId
      && o.result.value.keys == DeriveResumed(c, H2Psk(c, h.suite, hello, eph), c.dh(r.coins.xSk, h.x).value, e.psk)
      && o.st.store ==
           Some(PskStores.IssueS(c, r.st.store.value - {h.pskId}, o.result.value.keys.psk, e.clientId, r.now))
  {
    hide ReadFrame, RespFull, H2Psk, DeriveResumed, DecodeAlert, Sendable, DecodeHelloPsk, Gate;
  }

  /**
   A resumption over a faithful channel, when both ends hold the same key under its id: again one set
   of session keys; the initiator keeps the identity it cached, the responder the one it stored.
   */
  lemma {:induction false} ResumptionAgrees(c: Crypto, i: Initiator, r: Responder, p: ClientPsk)
    requires OutputLengths(c) && ExchangeCorrect(c) && |i.coins.random| == RAND_LEN && |p.id| == 16
    requires Resumes(i, p) && FaithfulChannel(c, i, r) && BothFinish(c, i, r)
    requires r.st.store.Some? && p.id in r.st.store.value ==> r.st.store.value[p.id].psk == p.psk
    ensures r.st.store.Some? && p.id in r.st.store.value
    ensures var (a, b) := (InitOf(c, i).result.value, RespOf(c, r).result.value);
      && a.keys == b.keys && a.peerId == p.peerId && b.peerId == r.st.store.value[p.id].clientId
      && RespOf(c, r).st.store == Some(PskStores.IssueS(c, r.st.store.value - {p.id}, b.keys.psk, b.peerId, r.now))
  {
    hide InitOf, RespOf, ReadFrame, Envelope, Envelopes, EncodeHelloPsk, DecodeHelloPsk, DeriveResumed, H2Psk, Sendable;
    ResumeInitTrace(c, i, p);
    var h := HelloPskOf(i.cfg, c, i.coins, p.id, i.now);
    var hello := EncodeHelloPsk(h);
    PowFacts();
    HelloPskRoundTrip(h);
    var f := Frame(FRAME_HELLO_PSK, hello);
    LoneEnvelope(f);
    FirstFrame(c, i, r, f, []);
    ResumeRespTrace(c, r, h, hello, ReadFrame(r.inbox[4..]).rest);
    var back := RespOf(c, r).frames[0];
    LoneEnvelope(back);
    ReadPrefix(back, [], i.inbox);
    assert c.dh(i.coins.xSk, c.dhPub(r.coins.xSk)) == c.dh(r.coins.xSk, c.dhPub(i.coins.xSk));
  }

  lemma {:induction false} LoneEnvelope(f: Frame)
    ensures Envelopes([f]) == Envelope(f) + []
  {
    hide Envelope;
    assert [f][1..] == [];
  }

  // ---- chains of resumptions ----

  /** Both ends between connections: last keys and recorded identities, the cached key, the store. */
  datatype Pair = Pair(keysI: SessionKeys, keysR: SessionKeys, peerI: Bytes, peerR: Bytes,
                       client: ClientPsk, store: PskStores.Store)

  /** Other traffic on the store, then one resumption; the initiator caches its new key at `cachedAt`. */
  datatype Hop = Hop(others: seq<PskStores.Op>, i: Initiator, r: Responder, cachedAt: int)

  function Others(c: Crypto, s: PskStores.Store, ops: seq<PskStores.Op>): PskStores.Store
    decreases |ops|
  {
    if ops == [] then s else Others(c, PskStores.Do(c, s, ops[0]).0, ops[1..])
  }

  /** No other key issued meanwhile has this id. */
  predicate NoClash(c: Crypto, ops: seq<PskStores.Op>, id: Bytes)
  {
    forall k :: 0 <= k < |ops| && ops[k].Issue? ==> PskId(c, ops[k].psk) != id
  }

  predicate HopDone(c: Crypto, s: Pair, hop: Hop)
  {
    && Resumes(hop.i, s.client) && |hop.i.coins.random| == RAND_LEN
    && NoClash(c, hop.others, s.client.id) && hop.r.st.store == Some(Others(c, s.store, hop.others))
    && FaithfulChannel(c, hop.i, hop.r) && BothFinish(c, hop.i, hop.r)
  }

  function AfterHop(c: Crypto, s: Pair, hop: Hop): Pair
    requires BothFinish(c, hop.i, hop.r)
  {
    var (a, b) := (InitOf(c, hop.i).result.value, RespOf(c, hop.r).result.value);
    var st := RespOf(c, hop.r).st.store;
    Pair(a.keys, b.keys, a.peerId, b.peerId, MakeClientPsk(c, a.keys.psk, a.peerId, hop.cachedAt),
         if st.Some? then st.value else s.store)
  }

  predicate ChainDone(c: Crypto, s: Pair, hops: seq<Hop>)
    decreases |hops|
  {
    hops == [] || (HopDone(c, s, hops[0]) && ChainDone(c, AfterHop(c, s, hops[0]), hops[1..]))
  }

  function AfterChain(c: Crypto, s: Pair, hops: seq<Hop>): Pair
    requires ChainDone(c, s, hops)
    decreases |hops|
  {
    if hops == [] then s else AfterChain(c, AfterHop(c, s, hops[0]), hops[1..])
  }

  /** Keys agree, identities are the original ones, and the stored key, if still there, is the cached one. */
  predicate InStep(c: Crypto, s: Pair, idI: Bytes, idR: Bytes)
  {
    && s.keysI == s.keysR && s.peerI == idR && s.peerR == idI
    && s.client.id == PskId(c, s.client.psk) && s.client.peerId == idR
    && Stored(s.store, s.client.id, s.client.psk, idI)
  }

  /** Each hop takes the key it used out of the store, whatever key it leaves there. */
  predicate KeysConsumed(c: Crypto, s: Pair, hops: seq<Hop>)
    requires ChainDone(c, s, hops)
    decreases |hops|
  {
    hops == [] ||
    var t := AfterHop(c, s, hops[0]);
    (s.client.id in t.store ==> s.client.id == t.client.id) && KeysConsumed(c, t, hops[1..])
  }

  predicate Stored(store: PskStores.Store, id: Bytes, psk: Bytes, clientId: Bytes)
  {
    id in store ==> store[id].psk == psk && store[id].clientId == clientId
  }

  lemma {:induction false} OthersKeep(c: Crypto, s: PskStores.Store, ops: seq<PskStores.Op>, id: Bytes, psk: Bytes,
                                      clientId: Bytes)
    requires NoClash(c, ops, id) && Stored(s, id, psk, clientId)
    ensures Stored(Others(c, s, ops), id, psk, clientId)
    decreases |ops|
  {
    hide PskId;
    if ops != [] {
      assert ops[0].Issue? ==> PskId(c, ops[0].psk) != id;
      OthersKeep(c, PskStores.Do(c, s, ops[0]).0, ops[1..], id, psk, clientId);
    }
  }

  lemma {:induction false} HopInStep(c: Crypto, s: Pair, hop: Hop, idI: Bytes, idR: Bytes)
    requires OutputLengths(c) && ExchangeCorrect(c) && InStep(c, s, idI, idR) && HopDone(c, s, hop)
    ensures var t := AfterHop(c, s, hop);
      InStep(c, t, idI, idR) && (s.client.id in t.store ==> s.client.id == t.client.id)
  {
    hide ExchangeCorrect, InitOf, RespOf, FaithfulChannel, Others, NoClash;
    OthersKeep(c, s.store, hop.others, s.client.id, s.client.psk, idI);
    assert |s.client.id| == 16;
    ResumptionAgrees(c, hop.i, hop.r, s.client);
  }

  lemma {:induction false} ChainInStep(c: Crypto, s: Pair, hops: seq<Hop>, idI: Bytes, idR: Bytes)
    requires OutputLengths(c) && ExchangeCorrect(c) && InStep(c, s, idI, idR) && ChainDone(c, s, hops)
    ensures InStep(c, AfterChain(c, s, hops), idI, idR) && KeysConsumed(c, s, hops)
    decreases |hops|
  {
    hide OutputLengths, ExchangeCorrect, InStep, AfterHop, InitOf, RespOf, FaithfulChannel;
    if hops != [] {
      HopInStep(c, s, hops[0], idI, idR);
      ChainInStep(c, AfterHop(c, s, hops[0]), hops[1..], idI, idR);
    }
  }

  function AfterFull(c: Crypto, i: Initiator, r: Responder, cachedAt: int): Pair
    requires BothFinish(c, i, r) && RespOf(c, r).st.store.Some?
  {
    var (a, b) := (InitOf(c, i).result.value, RespOf(c, r).result.value);
    Pair(a.keys, b.keys, a.peerId, b.peerId, MakeClientPsk(c, a.keys.psk, a.peerId, cachedAt),
         RespOf(c, r).st.store.value)
  }

  /**
   Along every chain of resumptions begun by a full handshake over a faithful channel, both ends hold
   the same keys, the identity each records stays the one verified in that first handshake, and each key
   is gone from the store once a resumption has used it.
   */
  lemma {:induction false} ChainsKeepIdentities(c: Crypto, i: Initiator, r: Responder, cachedAt: int, hops: seq<Hop>)
    requires OutputLengths(c) && ExchangeCorrect(c) && |i.coins.random| == RAND_LEN
    requires FaithfulChannel(c, i, r) && BothFinish(c, i, r) && InitOf(c, i).view.Some?
    requires r.st.store.Some? && RespOf(c, r).st.store.Some? && ChainDone(c, AfterFull(c, i, r, cachedAt), hops)
    ensures var s := AfterChain(c, AfterFull(c, i, r, cachedAt), hops);
      && s.keysI == s.keysR
      && s.peerI == c.hash(c.sigPub(r.cfg.sk)) && s.peerR == c.hash(c.sigPub(i.cfg.sk))
    ensures KeysConsumed(c, AfterFull(c, i, r, cachedAt), hops)
  {
    hide OutputLengths, ExchangeCorrect, InitOf, RespOf, FaithfulChannel, ChainDone, AfterChain;
    FullHandshakeAgrees(c, i, r);
    var s := AfterFull(c, i, r, cachedAt);
    assert InStep(c, s, s.peerR, s.peerI);
    ChainInStep(c, s, hops, s.peerR, s.peerI);
  }
}
