/** Responder runs that share one store of resumption keys. */
module SingleUse {
  import opened ByteStrings
  import opened Frames
  import opened Primitives
  import opened Transcripts
  import opened Handshake
  import opened Agreement
  import opened Resumption
  import Admission
  import PskStores
  import Replay

  // ---- one run ----

  /** The resumption a connection asks for. */
  function AskedFor(inbox: Bytes): Option<HelloPsk>
  {
    var f := Admission.FirstFrame(inbox);
    if f.Some? && f.value.typ == FRAME_HELLO_PSK then DecodeHelloPsk(f.value.body) else None
  }

  /** The run gets as far as the store. */
  predicate Redeems(c: Crypto, r: Responder)
  {
    && !(r.cfg.strict && r.st.cache.None?)
    && AskedFor(r.inbox).Some?
    && var h := AskedFor(r.inbox).value;
    && AcceptsSuite(r.cfg, h.suite) && !(r.cfg.strict && h.pqMode == MODE_CLASSICAL)
    && Gate(r.st.cache, Replay.Key(c.hash(h.pskId), h.random), h.timestamp, r.now).1
  }

  /** At most one redemption, then at most one issue. */
  function StoreOps(c: Crypto, r: Responder): seq<PskStores.Op>
  {
    var done := RespOf(c, r).result;
    (if Redeems(c, r) then [PskStores.Redeem(AskedFor(r.inbox).value.pskId, r.now)] else []) +
    (if done.Ok? then [PskStores.Issue(done.value.keys.psk, done.value.peerId, r.now)] else [])
  }

  predicate ResumesKey(c: Crypto, r: Responder, id: Bytes)
  {
    RespOf(c, r).result.Ok? && AskedFor(r.inbox).Some? && AskedFor(r.inbox).value.pskId == id
  }

  /**
   A whole run is these operations on the store; a resumption that finishes redeemed the key it asked for,
   in its lifetime, and its peer is the one stored with the key.
   */
  lemma {:induction false} RunIsOps(c: Crypto, r: Responder, id: Bytes)
    requires r.st.store.Some?
    ensures RespOf(c, r).st.store == Some(Others(c, r.st.store.value, StoreOps(c, r)))
    ensures ResumesKey(c, r, id) ==>
      && Redeems(c, r) && id in r.st.store.value && r.now <= r.st.store.value[id].expires
      && RespOf(c, r).result.value.peerId == r.st.store.value[id].clientId
  {
    hide RespOf, Admission.FirstFrame, Others, Gate, AcceptsSuite, CheckHelloPsk, PskId;
    var f := Admission.FirstFrame(r.inbox);
    var s := r.st.store.value;
    if Misconfig(r) || f.None? || f.value.typ !in {FRAME_HELLO, FRAME_HELLO_PSK} {
      Refused(c, r);
    } else if f.value.typ == FRAME_HELLO {
      FullIsOp(c, r, f.value.body);
    } else {
      RedeemChecked(c, r, f.value.body);
      ResumeIsOps(c, r, f.value.body);
    }
    OpsOne(c, s, StoreOps(c, r));
  }

  predicate Misconfig(r: Responder)
  {
    r.cfg.strict && r.st.cache.None?
  }

  lemma {:induction false} OpsOne(c: Crypto, s: PskStores.Store, ops: seq<PskStores.Op>)
    requires |ops| <= 2
    ensures Others(c, s, ops) ==
      if |ops| == 0 then s
      else if |ops| == 1 then PskStores.Do(c, s, ops[0]).0
      else PskStores.Do(c, PskStores.Do(c, s, ops[0]).0, ops[1]).0
    decreases |ops|
  {
    hide PskStores.Do;
    if |ops| > 0 {
      OpsOne(c, PskStores.Do(c, s, ops[0]).0, ops[1..]);
    }
  }

  lemma {:induction false} Refused(c: Crypto, r: Responder)
    requires Misconfig(r) || Admission.FirstFrame(r.inbox).None? ||
             Admission.FirstFrame(r.inbox).value.typ !in {FRAME_HELLO, FRAME_HELLO_PSK}
    ensures RespOf(c, r).st.store == r.st.store && RespOf(c, r).result.Err? && !Redeems(c, r)
  {
    hide ReadFrame, DecodeAlert, RespFull, RespResume, DecodeHelloPsk, Gate;
  }

  lemma {:induction false} FullIsOp(c: Crypto, r: Responder, hello: Bytes)
    requires r.st.store.Some? && !Misconfig(r) && Admission.FirstFrame(r.inbox) == Some(Frame(FRAME_HELLO, hello))
    ensures var o := RespOf(c, r);
      && AskedFor(r.inbox).None?
      && o.st.store ==
           Some(if o.result.Ok?
                then PskStores.IssueS(c, r.st.store.value, o.result.value.keys.psk, o.result.value.peerId, r.now)
                else r.st.store.value)
  {
    hide ReadFrame, CheckHello, Expect, RespView, CheckAuth, MakeAuth, KeysOf, PskStores.IssueS, RespResume;
  }

  lemma {:induction false} ResumeIsOps(c: Crypto, r: Responder, hello: Bytes)
    requires r.st.store.Some? && !Misconfig(r) && Admission.FirstFrame(r.inbox) == Some(Frame(FRAME_HELLO_PSK, hello))
    ensures var (o, h) := (RespOf(c, r), CheckHelloPsk(c, r.cfg, r.st, hello, r.now));
      && h.1.store.Some? && (o.result.Ok? ==> h.0.Ok? && o.result.value.peerId == h.0.value.1.clientId)
      && o.st.store ==
           if o.result.Ok?
           then Some(PskStores.IssueS(c, h.1.store.value, o.result.value.keys.psk, o.result.value.peerId, r.now))
           else h.1.store
  {
    hide ReadFrame, CheckHelloPsk, DeriveResumed, H2Psk, PskStores.IssueS, RespFull;
    RedeemChecked(c, r, hello);
  }

  lemma {:induction false} RedeemChecked(c: Crypto, r: Responder, hello: Bytes)
    requires r.st.store.Some? && !Misconfig(r) && Admission.FirstFrame(r.inbox) == Some(Frame(FRAME_HELLO_PSK, hello))
    ensures var (h, st) := CheckHelloPsk(c, r.cfg, r.st, hello, r.now);
      if !Redeems(c, r) then h.Err? && st.store == r.st.store
      else
        var (store, hit) := PskStores.RedeemS(r.st.store.value, AskedFor(r.inbox).value.pskId, r.now);
        && st.store == Some(store) && (h.Ok? <==> hit.Some?)
        && (h.Ok? ==> h.value == (AskedFor(r.inbox).value, hit.value))
  {
    hide Admission.FirstFrame, DecodeHelloPsk, AcceptsSuite;
  }

  // ---- many runs at once, one store ----

  /**
   What happens to the store, one locked operation at a time: a run gets to the point where it redeems,
   if it does; the run whose point was event b ends, and issues if it succeeds; or another operation.
   */
  datatype Event = Reach(r: Responder) | End(b: nat) | Other(op: PskStores.Op)

  function With(r: Responder, s: PskStores.Store): Responder
  {
    r.(st := r.st.(store := Some(s)))
  }

  function RedeemOf(c: Crypto, r: Responder): seq<PskStores.Op>
  {
    if Redeems(c, r) then [PskStores.Redeem(AskedFor(r.inbox).value.pskId, r.now)] else []
  }

  function IssueOf(c: Crypto, r: Responder): seq<PskStores.Op>
  {
    var done := RespOf(c, r).result;
    if done.Ok? then [PskStores.Issue(done.value.keys.psk, done.value.peerId, r.now)] else []
  }

  function StoreAfter(c: Crypto, events: seq<Event>): PskStores.Store
    decreases |events|, 1
  {
    if events == [] then map[]
    else Others(c, StoreAfter(c, events[..|events| - 1]), LastOps(c, events))
  }

  /** The operation of the last event, if it has one. A run ends as it would on the store it redeemed from. */
  function LastOps(c: Crypto, events: seq<Event>): seq<PskStores.Op>
    requires events != []
    decreases |events|, 0
  {
    var n := |events| - 1;
    match events[n]
    case Reach(r) => RedeemOf(c, r)
    case End(b) =>
      if b < n && events[b].Reach? then IssueOf(c, With(events[b].r, StoreAfter(c, events[..b]))) else []
    case Other(op) => [op]
  }

  function OpsAt(c: Crypto, events: seq<Event>, m: nat): seq<PskStores.Op>
    requires m < |events|
  {
    LastOps(c, events[..m + 1])
  }

  /** A run no other comes between is the run on its own. */
  lemma {:induction false} UninterruptedIsRun(c: Crypto, events: seq<Event>, r: Responder)
    ensures Some(StoreAfter(c, events + [Reach(r)] + [End(|events|)])) ==
      RespOf(c, With(r, StoreAfter(c, events))).st.store
  {
    hide RespOf, Redeems, AskedFor, Others;
    var s := StoreAfter(c, events);
    var (one, two) := (events + [Reach(r)], events + [Reach(r)] + [End(|events|)]);
    assert one[..|events|] == events && two[..|events| + 1] == one && two[..|events|] == events;
    RunIsOps(c, With(r, s), []);
    RedeemsAlone(c, r, s);
    OthersConcat(c, s, RedeemOf(c, r), IssueOf(c, With(r, s)));
    assert StoreAfter(c, one) == Others(c, s, RedeemOf(c, r));
    assert StoreAfter(c, two) == Others(c, StoreAfter(c, one), IssueOf(c, With(r, s)));
  }

  lemma {:induction false} OthersConcat(c: Crypto, s: PskStores.Store, a: seq<PskStores.Op>, b: seq<PskStores.Op>)
    ensures Others(c, s, a + b) == Others(c, Others(c, s, a), b)
    decreases |a|
  {
    hide PskStores.Do;
    if a == [] {
      assert a + b == b;
    } else {
      OthersConcat(c, PskStores.Do(c, s, a[0]).0, a[1..], b);
      assert (a + b)[1..] == a[1..] + b;
    }
  }

  lemma {:induction false} RedeemsAlone(c: Crypto, r: Responder, s: PskStores.Store)
    ensures RedeemOf(c, With(r, s)) == RedeemOf(c, r)
    ensures StoreOps(c, With(r, s)) == RedeemOf(c, r) + IssueOf(c, With(r, s))
  {
    hide RespOf, AskedFor, Gate;
  }

  predicate Stores(c: Crypto, op: PskStores.Op, id: Bytes, e: PskStores.Entry)
  {
    && op.Issue? && PskId(c, op.psk) == id
    && e == PskStores.Entry(op.psk, op.clientId, op.at + PskStores.PSK_TTL)
  }

  /** What is stored was there and left alone, or is what one of the operations issued. */
  lemma {:induction false} OthersEntry(c: Crypto, s: PskStores.Store, ops: seq<PskStores.Op>, id: Bytes)
    requires id in Others(c, s, ops)
    ensures var e := Others(c, s, ops)[id];
      || (id in s && s[id] == e && forall k :: 0 <= k < |ops| ==> !PskStores.Touches(c, ops[k], id))
      || (exists k :: 0 <= k < |ops| && Stores(c, ops[k], id, e))
    decreases |ops|
  {
    hide PskId;
    if ops != [] {
      var t := PskStores.Do(c, s, ops[0]).0;
      var e := Others(c, s, ops)[id];
      OthersEntry(c, t, ops[1..], id);
      if exists k :: 0 <= k < |ops[1..]| && Stores(c, ops[1..][k], id, e) {
        var k :| 0 <= k < |ops[1..]| && Stores(c, ops[1..][k], id, e);
        assert Stores(c, ops[k + 1], id, e);
      } else if Stores(c, ops[0], id, e) {
      } else {
        forall k | 0 <= k < |ops| ensures !PskStores.Touches(c, ops[k], id)
        {
          assert k > 0 ==> ops[k] == ops[1..][k - 1];
        }
      }
    }
  }

  /** Event m is where a run that resumes from the key with this id redeems it. */
  predicate ResumedAt(c: Crypto, events: seq<Event>, m: nat, id: Bytes)
  {
    m < |events| && events[m].Reach? && ResumesKey(c, With(events[m].r, StoreAfter(c, events[..m])), id)
  }

  /** Event m issued this entry under this id. */
  predicate IssuedAt(c: Crypto, events: seq<Event>, m: nat, id: Bytes, e: PskStores.Entry)
  {
    m < |events| && exists k :: 0 <= k < |OpsAt(c, events, m)| && Stores(c, OpsAt(c, events, m)[k], id, e)
  }

  predicate UnusedSince(c: Crypto, events: seq<Event>, m: nat, n: nat, id: Bytes)
  {
    forall q :: m < q < n ==> !ResumedAt(c, events, q, id)
  }

  lemma {:induction false} StoreMoves(c: Crypto, events: seq<Event>, m: nat)
    requires m < |events|
    ensures StoreAfter(c, events[..m + 1]) == Others(c, StoreAfter(c, events[..m]), OpsAt(c, events, m))
  {
    hide LastOps, Others;
    assert events[..m + 1][..m] == events[..m];
  }

  lemma {:induction false} StoredIsUnused(c: Crypto, events: seq<Event>, n: nat, id: Bytes) returns (m: nat)
    requires n <= |events| && id in StoreAfter(c, events[..n])
    ensures m < n && IssuedAt(c, events, m, id, StoreAfter(c, events[..n])[id]) && UnusedSince(c, events, m, n, id)
    decreases n
  {
    hide RespOf, Others, PskStores.Do, PskStores.Touches, Stores, ResumesKey, LastOps;
    StoreMoves(c, events, n - 1);
    var s := StoreAfter(c, events[..n - 1]);
    var ops := OpsAt(c, events, n - 1);
    OthersEntry(c, s, ops, id);
    if IssuedAt(c, events, n - 1, id, StoreAfter(c, events[..n])[id]) {
      m := n - 1;
    } else {
      m := StoredIsUnused(c, events, n - 1, id);
      if ResumedAt(c, events, n - 1, id) {
        ResumptionTouches(c, events, n - 1, id);
      }
    }
  }

  lemma {:induction false} ResumptionTouches(c: Crypto, events: seq<Event>, n: nat, id: Bytes)
    requires ResumedAt(c, events, n, id)
    ensures |OpsAt(c, events, n)| > 0 && PskStores.Touches(c, OpsAt(c, events, n)[0], id)
  {
    hide RespOf, Redeems, AskedFor, StoreAfter;
    var (r, s) := (events[n].r, StoreAfter(c, events[..n]));
    RunIsOps(c, With(r, s), id);
    RedeemsAlone(c, r, s);
    RedeemsSame(c, r, s);
    assert events[..n + 1][n] == events[n];
    assert AskedFor(r.inbox).value.pskId == id;
  }

  lemma {:induction false} RedeemsSame(c: Crypto, r: Responder, s: PskStores.Store)
    ensures Redeems(c, With(r, s)) <==> Redeems(c, r)
  {
    hide AskedFor, Gate;
  }

  /**
   Single use, over any number of runs, full or resumed, on any input, at once: in every interleaving of
   their operations on the store with each other and with any others, a run that resumes from a key got
   it from an earlier Issue, in its lifetime and for its owner, and no run since that Issue has resumed
   from it.
   */
  lemma {:induction false} KeyResumedOnce(c: Crypto, events: seq<Event>, n: nat, id: Bytes)
    returns (m: nat, e: PskStores.Entry)
    requires ResumedAt(c, events, n, id)
    ensures m < n && IssuedAt(c, events, m, id, e) && UnusedSince(c, events, m, n, id)
    ensures var r := With(events[n].r, StoreAfter(c, events[..n]));
      r.now <= e.expires && RespOf(c, r).result.value.peerId == e.clientId
  {
    hide RespOf, Others, StoreOps, IssuedAt, UnusedSince, Redeems, LastOps;
    var s := StoreAfter(c, events[..n]);
    RunIsOps(c, With(events[n].r, s), id);
    e := s[id];
    m := StoredIsUnused(c, events, n, id);
  }
}
