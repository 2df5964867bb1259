/**
 Whom a responder serves: the policy every served HELLO has passed, and, over any number of runs that
 share one replay cache, that no first frame is served twice.
 */
module Admission {
  import opened ByteStrings
  import opened Frames
  import opened Primitives
  import opened Transcripts
  import opened Handshake
  import opened Agreement
  import Replay
  import PskStores

  /** The first handshake frame, when the magic prefix is right and the frame is whole. */
  function FirstFrame(inbox: Bytes): Option<Frame>
  {
    if |inbox| >= 4 && inbox[..4] == MAGIC
      && ReadFrame(inbox[4..]).Got? then Some(ReadFrame(inbox[4..]).frame) else None
  }

  /** A run that signed the exchange or finished. */
  predicate Served(o: RespOut)
  {
    o.view.Some? || o.result.Ok?
  }

  // ---- the policy ----

  predicate PolicyAdmits(c: Crypto, cfg: RespCfg, h: Hello)
  {
    && AcceptsSuite(cfg, h.suite)
    && (cfg.strict ==> h.pqMode != MODE_CLASSICAL && forall i :: 0 <= i < |h.schemes| ==> h.schemes[i] == SUITE_V1)
    && c.hash(h.staticPk) == h.clientId && c.sigPkOk(h.staticPk)
  }

  lemma {:induction false} CheckedPolicy(c: Crypto, cfg: RespCfg, cache: Option<Replay.Cache>, body: Bytes, now: int)
    requires CheckHello(c, cfg, cache, body, now).0.Ok?
    ensures DecodeHello(body).Some? && PolicyAdmits(c, cfg, DecodeHello(body).value)
    ensures var h := DecodeHello(body).value;
      Gate(cache, Replay.Key(h.clientId, h.random), h.timestamp, now) == (CheckHello(c, cfg, cache, body, now).1, true)
  {
    hide DecodeHello, Gate, AcceptsSuite;
  }

  /**
   A responder signs only for a HELLO its policy admits, whose client id is the digest of the key it
   presents, and that id is what the session records.
   */
  lemma {:induction false} SignsOnlyAdmitted(c: Crypto, r: Responder)
    requires RespOf(c, r).view.Some?
    ensures var v := RespOf(c, r).view.value;
      && DecodeHello(v.script.hello).Some? && PolicyAdmits(c, r.cfg, DecodeHello(v.script.hello).value)
      && FirstFrame(r.inbox) == Some(Frame(FRAME_HELLO, v.script.hello))
      && (RespOf(c, r).result.Ok? ==> RespOf(c, r).result.value.peerId == DecodeHello(v.script.hello).value.clientId)
  {
    hide RespOf, CheckHello, DecodeHello, PolicyAdmits, Verifies, Message, KeysOf, FirstFrame;
    SignedFirst(c, r);
    var v := RespOf(c, r).view.value;
    CheckedPolicy(c, r.cfg, r.st.cache, v.script.hello, r.now);
    RespSigns(c, r);
    PolicyId(c, r.cfg, DecodeHello(v.script.hello).value);
  }

  /** The HELLO a run signs for is its first frame, and passed its checks. */
  lemma {:induction false} SignedFirst(c: Crypto, r: Responder)
    requires RespOf(c, r).view.Some?
    ensures var hello := RespOf(c, r).view.value.script.hello;
      FirstFrame(r.inbox) == Some(Frame(FRAME_HELLO, hello)) && CheckHello(c, r.cfg, r.st.cache, hello, r.now).0.Ok?
  {
    hide RespView, CheckAuth, MakeAuth, KeysOf, Expect, ReadFrame, CheckHello, CheckHelloPsk, Issued, DecodeHello;
    var f := ReadFrame(r.inbox[4..]);
    var hello := f.frame.body;
    CheckedHello(c, r, hello);
    var h := CheckHello(c, r.cfg, r.st.cache, hello, r.now).0.value;
    RespViewHolds(c, r.cfg, r.coins, h, hello, Expect(f.rest, FRAME_KEM_INIT).0.value);
  }

  lemma {:induction false} PolicyId(c: Crypto, cfg: RespCfg, h: Hello)
    requires PolicyAdmits(c, cfg, h)
    ensures c.hash(h.staticPk) == h.clientId
  {
  }

  // ---- many runs, one cache ----

  /** One connection: everything a run depends on but the replay cache. */
  datatype Visit = Visit(cfg: RespCfg, coins: RespCoins, store: Option<PskStores.Store>, now: int, w: nat, inbox: Bytes)

  function RunOf(v: Visit, cache: Replay.Cache): Responder
  {
    Responder(v.cfg, v.coins, RespSt(Some(cache), v.store), v.now, v.w, v.inbox)
  }

  predicate ReachesGate(cfg: RespCfg, f: Frame)
  {
    if f.typ == FRAME_HELLO then
      var h := DecodeHello(f.body);
      && h.Some? && AcceptsSuite(cfg, h.value.suite)
      && !(cfg.strict && h.value.pqMode == MODE_CLASSICAL)
      && !(cfg.strict && exists i :: 0 <= i < |h.value.schemes| && h.value.schemes[i] != SUITE_V1)
    else if f.typ == FRAME_HELLO_PSK then
      var h := DecodeHelloPsk(f.body);
      h.Some? && AcceptsSuite(cfg, h.value.suite) && !(cfg.strict && h.value.pqMode == MODE_CLASSICAL)
    else false
  }

  /** What the run asks of the cache; a frame without gate input stands for "nothing". */
  function OpOf(v: Visit): Replay.Op
  {
    var f := FirstFrame(v.inbox);
    Replay.Gate(if f.Some? && ReachesGate(v.cfg, f.value) then f.value else Frame(0, []), v.now)
  }

  lemma {:induction false} GateIsOp(c: Crypto, cache: Replay.Cache, f: Frame, now: int)
    requires Replay.GateInput(c, f).Some?
    ensures var (k, ts) := Replay.GateInput(c, f).value;
      Gate(Some(cache), k, ts, now) ==
        (Some(Replay.Do(c, cache, Replay.Gate(f, now)).0), Replay.Do(c, cache, Replay.Gate(f, now)).1)
  {
    hide Replay.GateInput, Replay.SeenOrAddS, Replay.InWindow;
  }

  lemma {:induction false} NothingOp(c: Crypto, cache: Replay.Cache, now: int)
    ensures Replay.Do(c, cache, Replay.Gate(Frame(0, []), now)) == (cache, false)
  {
  }

  /** A HELLO's checks touch the cache exactly as the gate operation does. */
  lemma {:induction false} HelloIsOp(c: Crypto, v: Visit, cache: Replay.Cache, f: Frame)
    requires FirstFrame(v.inbox) == Some(f) && f.typ == FRAME_HELLO
    ensures var (h, after) := CheckHello(c, v.cfg, Some(cache), f.body, v.now);
      && after == Some(Replay.Do(c, cache, OpOf(v)).0)
      && (h.Ok? ==> OpOf(v) == Replay.Gate(f, v.now) && Replay.Do(c, cache, OpOf(v)).1)
  {
    hide FirstFrame, DecodeHello, AcceptsSuite, Gate, Replay.Do;
    NothingOp(c, cache, v.now);
    if ReachesGate(v.cfg, f) {
      GateIsOp(c, cache, f, v.now);
    }
  }

  lemma {:induction false} HelloPskIsOp(c: Crypto, v: Visit, cache: Replay.Cache, f: Frame)
    requires FirstFrame(v.inbox) == Some(f) && f.typ == FRAME_HELLO_PSK
    ensures var (h, after) := CheckHelloPsk(c, v.cfg, RespSt(Some(cache), v.store), f.body, v.now);
      && after.cache == Some(Replay.Do(c, cache, OpOf(v)).0)
      && (h.Ok? ==> OpOf(v) == Replay.Gate(f, v.now) && Replay.Do(c, cache, OpOf(v)).1)
  {
    hide FirstFrame, DecodeHelloPsk, AcceptsSuite, Gate, Replay.Do, PskStores.RedeemS;
    NothingOp(c, cache, v.now);
    if ReachesGate(v.cfg, f) {
      GateIsOp(c, cache, f, v.now);
    }
  }

  /** A whole run is one operation on the cache, and serves only when that operation admits its frame. */
  lemma {:induction false} RunIsOp(c: Crypto, v: Visit, cache: Replay.Cache)
    ensures var o := RespOf(c, RunOf(v, cache));
      && o.st.cache == Some(Replay.Do(c, cache, OpOf(v)).0)
      && (Served(o) ==> Replay.Do(c, cache, OpOf(v)).1 && FirstFrame(v.inbox) == Some(OpOf(v).frame))
  {
    hide CheckHello, CheckHelloPsk, Replay.Do, OpOf, RespOf, Served, FirstFrame, RunOf;
    var f := FirstFrame(v.inbox);
    if f.None? || f.value.typ !in {FRAME_HELLO, FRAME_HELLO_PSK} {
      NoFirst(c, v, cache);
      NotServed(c, v, cache);
    } else if f.value.typ == FRAME_HELLO {
      HelloIsOp(c, v, cache, f.value);
      ServedFull(c, v, cache, f.value);
    } else {
      HelloPskIsOp(c, v, cache, f.value);
      ServedResume(c, v, cache, f.value);
    }
  }

  lemma {:induction false} ServedFull(c: Crypto, v: Visit, cache: Replay.Cache, f: Frame)
    requires FirstFrame(v.inbox) == Some(f) && f.typ == FRAME_HELLO
    ensures var (o, h) := (RespOf(c, RunOf(v, cache)), CheckHello(c, v.cfg, Some(cache), f.body, v.now));
      o.st.cache == h.1 && (Served(o) ==> h.0.Ok?)
  {
    hide ReadFrame, CheckHello, Expect, RespView, CheckAuth, MakeAuth, KeysOf, PskStores.IssueS;
  }

  lemma {:induction false} ServedResume(c: Crypto, v: Visit, cache: Replay.Cache, f: Frame)
    requires FirstFrame(v.inbox) == Some(f) && f.typ == FRAME_HELLO_PSK
    ensures var o := RespOf(c, RunOf(v, cache));
      var h := CheckHelloPsk(c, v.cfg, RespSt(Some(cache), v.store), f.body, v.now);
      o.st.cache == h.1.cache && (Served(o) ==> h.0.Ok?)
  {
    hide ReadFrame, CheckHelloPsk, DeriveResumed, H2Psk, PskStores.IssueS;
  }

  /** Any other first frame, or none, is not served and leaves the cache alone. */
  lemma {:induction false} NotServed(c: Crypto, v: Visit, cache: Replay.Cache)
    requires FirstFrame(v.inbox).None? || FirstFrame(v.inbox).value.typ !in {FRAME_HELLO, FRAME_HELLO_PSK}
    ensures var o := RespOf(c, RunOf(v, cache)); o.st.cache == Some(cache) && !Served(o)
  {
    hide ReadFrame, DecodeAlert, RespFull, RespResume;
  }

  lemma {:induction false} NoFirst(c: Crypto, v: Visit, cache: Replay.Cache)
    ensures var f := FirstFrame(v.inbox);
      f.None? || f.value.typ !in {FRAME_HELLO, FRAME_HELLO_PSK} ==> Replay.Do(c, cache, OpOf(v)) == (cache, false)
  {
    hide FirstFrame, Replay.Do;
    NothingOp(c, cache, v.now);
  }

  /** The cache before each run, threaded through the runs before it. */
  function CacheAfter(c: Crypto, start: int, visits: seq<Visit>): Replay.Cache
    decreases |visits|
  {
    if visits == [] then Replay.Fresh(start)
    else
      var n := |visits| - 1;
      var before := CacheAfter(c, start, visits[..n]);
      var st := RespOf(c, RunOf(visits[n], before)).st.cache;
      if st.Some? then st.value else before
  }

  function OutAt(c: Crypto, start: int, visits: seq<Visit>, i: nat): RespOut
    requires i < |visits|
  {
    RespOf(c, RunOf(visits[i], CacheAfter(c, start, visits[..i])))
  }

  function Ops(visits: seq<Visit>): seq<Replay.Op>
  {
    seq(|visits|, k requires 0 <= k < |visits| => OpOf(visits[k]))
  }

  lemma {:induction false} CacheIsRun(c: Crypto, start: int, visits: seq<Visit>)
    ensures CacheAfter(c, start, visits) == Replay.After(c, Replay.Fresh(start), Ops(visits))
    decreases |visits|
  {
    hide RespOf, RunOf, OpOf, Served, Replay.Do;
    if visits != [] {
      var n := |visits| - 1;
      CacheIsRun(c, start, visits[..n]);
      RunIsOp(c, visits[n], CacheAfter(c, start, visits[..n]));
      assert Ops(visits)[..n] == Ops(visits[..n]);
    }
  }

  lemma {:induction false} ServedPasses(c: Crypto, start: int, visits: seq<Visit>, i: nat, f: Frame)
    requires i < |visits| && Served(OutAt(c, start, visits, i)) && FirstFrame(visits[i].inbox) == Some(f)
    ensures Replay.Passes(c, start, Ops(visits), i, f)
  {
    hide RespOf, RunOf, Served, Replay.Do, FirstFrame, ReachesGate;
    CacheIsRun(c, start, visits[..i]);
    RunIsOp(c, visits[i], CacheAfter(c, start, visits[..i]));
    assert Ops(visits)[..i] == Ops(visits[..i]);
  }

  /**
   Any number of runs, full or resumed, on any input, sharing one replay cache and a clock that does
   not go back: no first frame whose timestamp does not wrap is served by two of them.
   */
  lemma {:induction false} NoFirstFrameServedTwice(c: Crypto, start: int, visits: seq<Visit>, f: Frame, i: nat, j: nat)
    requires i < j < |visits|
    requires forall k :: 0 <= k < |visits| ==> start <= visits[k].now && -TWO63 <= visits[k].now < TWO63
    requires forall k, l :: 0 <= k <= l < |visits| ==> visits[k].now <= visits[l].now
    requires FirstFrame(visits[i].inbox) == Some(f) && FirstFrame(visits[j].inbox) == Some(f)
    requires Replay.GateInput(c, f).Some? ==> Replay.SingleWindow(Replay.GateInput(c, f).value.1)
    ensures !(Served(OutAt(c, start, visits, i)) && Served(OutAt(c, start, visits, j)))
  {
    hide OutAt, Served, FirstFrame, Replay.GateInput, Replay.SingleWindow, ReachesGate, Replay.Passes;
    var ops := Ops(visits);
    assert Replay.Clocked(ops, start) && Replay.Int64Clock(ops);
    Replay.NoFramePassesTwice(c, start, ops, f);
    if Served(OutAt(c, start, visits, i)) && Served(OutAt(c, start, visits, j)) {
      ServedPasses(c, start, visits, i, f);
      ServedPasses(c, start, visits, j, f);
    }
  }
}
