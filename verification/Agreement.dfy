/**
 Agreement of the full handshake under any wire behaviour. The input of every run is an arbitrary
 byte string; the signature scheme is only asked not to verify, under an honest key, the very
 message of the run unless a run of that key's owner signed it.
 */
module Agreement {
  import opened ByteStrings
  import opened Frames
  import opened Primitives
  import opened Transcripts
  import opened Handshake

  /** One run of either side: everything it depends on. */
  datatype Initiator = Initiator(cfg: InitCfg, coins: InitCoins, now: int, w: nat, inbox: Bytes)
  datatype Responder = Responder(cfg: RespCfg, coins: RespCoins, st: RespSt, now: int, w: nat, inbox: Bytes)

  function InitOf(c: Crypto, i: Initiator): InitOut
  {
    InitRun(c, i.cfg, i.coins, i.now, i.w, i.inbox)
  }

  function RespOf(c: Crypto, r: Responder): RespOut
  {
    RespRun(c, r.cfg, r.coins, r.st, r.now, r.w, r.inbox)
  }

  /** The message a view is authenticated by, in the given role. */
  function Message(c: Crypto, v: View, role: byte): Bytes
  {
    SignInput(H2(c, v.script), role, v.script.suite)
  }

  ghost predicate Verifies(c: Crypto, pk: Bytes, m: Bytes)
  {
    exists sig :: c.verify(pk, m, sig)
  }

  // ---- what a run that has signed knows ----

  predicate InitHolds(c: Crypto, cfg: InitCfg, coins: InitCoins, v: View)
  {
    var k := DecodeKemReply(v.script.reply);
    && v.script.suite == Suite(cfg) && v.script.pkI == c.sigPub(cfg.sk)
    && v.script.init == KemInitBody(c, coins)
    && k.Some? && k.value.staticPk == v.script.pkR
    && c.dh(coins.xSk, k.value.x) == Some(v.x) && c.decap(coins.kemSk, k.value.ct) == Some(v.ss)
    && (cfg.expected.Some? ==> cfg.expected.value == c.hash(v.script.pkR))
  }

  lemma {:induction false} InitViewHolds(c: Crypto, cfg: InitCfg, coins: InitCoins, hello: Bytes, reply: Bytes)
    requires InitView(c, cfg, coins, hello, reply).Ok?
    ensures InitHolds(c, cfg, coins, InitView(c, cfg, coins, hello, reply).value)
    ensures InitView(c, cfg, coins, hello, reply).value.script.hello == hello
    ensures InitView(c, cfg, coins, hello, reply).value.script.reply == reply
  {
    hide KemInitBody, DecodeKemReply;
  }

  lemma {:induction false} CheckedVerifies(c: Crypto, v: View, role: byte, body: Bytes)
    requires CheckAuth(c, v, role, body).Ok?
    ensures Verifies(c, if role == ROLE_R then v.script.pkR else v.script.pkI, Message(c, v, role))
  {
    hide H2, SignInput;
  }

  /** A signing initiator has checked the responder, and ends with the keys of its view. */
  lemma {:induction false} InitSigns(c: Crypto, i: Initiator)
    requires InitOf(c, i).view.Some?
    ensures var v := InitOf(c, i).view.value;
      && InitHolds(c, i.cfg, i.coins, v)
      && Verifies(c, v.script.pkR, Message(c, v, ROLE_R))
      && (InitOf(c, i).result.Ok? ==>
            InitOf(c, i).result.value == Done(KeysOf(c, v), c.hash(v.script.pkR), v.script.suite))
  {
    hide InitView, CheckAuth, MakeAuth, KeysOf, Expect, H2, InitHolds, Verifies, Message, EncodeHello, OwnHello,
         KemInitBody, EncodeHelloPsk, ReadFrame, InitResumed;
    var hello := EncodeHello(OwnHello(c, i.cfg, i.coins, i.now)).value;
    var (reply, rest) := Expect(i.inbox, FRAME_KEM_REPLY);
    InitViewHolds(c, i.cfg, i.coins, hello, reply.value);
    var v := InitView(c, i.cfg, i.coins, hello, reply.value).value;
    var (auth, _) := Expect(rest, FRAME_AUTH);
    CheckedVerifies(c, v, ROLE_R, auth.value);
  }

  predicate RespHolds(c: Crypto, cfg: RespCfg, coins: RespCoins, v: View)
  {
    var h, k := DecodeHello(v.script.hello), DecodeKemInit(v.script.init);
    && h.Some? && h.value.staticPk == v.script.pkI && v.script.suite == h.value.suite
    && k.Some? && v.script.pkR == c.sigPub(cfg.sk)
    && c.dh(coins.xSk, k.value.x) == Some(v.x)
    && c.encap(k.value.kem, coins.kem).Some?
    && v.ss == c.encap(k.value.kem, coins.kem).value.1
    && |c.encap(k.value.kem, coins.kem).value.0| == KEM_CT
    && EncodeKemReply(KemReply(c.dhPub(coins.xSk), c.encap(k.value.kem, coins.kem).value.0, v.script.pkR))
       == Some(v.script.reply)
  }

  lemma {:induction false} CheckedHello(c: Crypto, r: Responder, hello: Bytes)
    requires CheckHello(c, r.cfg, r.st.cache, hello, r.now).0.Ok?
    ensures DecodeHello(hello) == Some(CheckHello(c, r.cfg, r.st.cache, hello, r.now).0.value)
  {
    hide DecodeHello, Gate;
  }

  lemma {:induction false} RespViewHolds(c: Crypto, cfg: RespCfg, coins: RespCoins, h: Hello, hello: Bytes, init: Bytes)
    requires DecodeHello(hello) == Some(h) && RespView(c, cfg, coins, h, hello, init).Ok?
    ensures RespHolds(c, cfg, coins, RespView(c, cfg, coins, h, hello, init).value)
    ensures RespView(c, cfg, coins, h, hello, init).value.script.hello == hello
    ensures RespView(c, cfg, coins, h, hello, init).value.script.init == init
  {
    hide DecodeHello, DecodeKemInit, EncodeKemReply;
  }

  /** A signing responder answered the HELLO and KEM_INIT it names; when it ends, the initiator verified. */
  lemma {:induction false} RespSigns(c: Crypto, r: Responder)
    requires RespOf(c, r).view.Some?
    ensures var v := RespOf(c, r).view.value;
      && RespHolds(c, r.cfg, r.coins, v)
      && (RespOf(c, r).result.Ok? ==>
            && RespOf(c, r).result.value == Done(KeysOf(c, v), c.hash(v.script.pkI), v.script.suite)
            && Verifies(c, v.script.pkI, Message(c, v, ROLE_I)))
  {
    hide RespView, CheckAuth, MakeAuth, KeysOf, Expect, RespHolds, Verifies, Message, ReadFrame, CheckHello,
         CheckHelloPsk, Issued, DecodeHello;
    var inbox := r.inbox[4..];
    var (hello, in1) := (ReadFrame(inbox).frame.body, ReadFrame(inbox).rest);
    CheckedHello(c, r, hello);
    var h := CheckHello(c, r.cfg, r.st.cache, hello, r.now).0.value;
    var (init, in2) := Expect(in1, FRAME_KEM_INIT);
    RespViewHolds(c, r.cfg, r.coins, h, hello, init.value);
    var v := RespView(c, r.cfg, r.coins, h, hello, init.value).value;
    if RespOf(c, r).result.Ok? {
      var (auth, _) := Expect(in2, FRAME_AUTH);
      CheckedVerifies(c, v, ROLE_I, auth.value);
    }
  }

  // ---- same transcript, same secrets ----

  lemma {:induction false} InitWellSized(c: Crypto, cfg: InitCfg, coins: InitCoins, v: View)
    requires OutputLengths(c) && InitHolds(c, cfg, coins, v)
    ensures WellSized(v.script)
  {
  }

  lemma {:induction false} RespWellSized(c: Crypto, cfg: RespCfg, coins: RespCoins, v: View)
    requires OutputLengths(c) && RespHolds(c, cfg, coins, v)
    ensures WellSized(v.script)
  {
    hide BE, FromBE;
  }

  /** Two ends that share the transcript share both secrets. */
  lemma {:induction false} SameSecrets(c: Crypto, i: InitCfg, ic: InitCoins, v: View, r: RespCfg, rc: RespCoins,
                                       u: View)
    requires OutputLengths(c) && ExchangeCorrect(c)
    requires InitHolds(c, i, ic, v) && RespHolds(c, r, rc, u) && v.script == u.script
    ensures v == u
  {
    hide DecodeHello;
    var k := KemInit(c.dhPub(ic.xSk), c.kemPub(ic.kemSk));
    KemInitRoundTrip(k);
    var ct := c.encap(k.kem, rc.kem).value.0;
    KemReplyRoundTrip(KemReply(c.dhPub(rc.xSk), ct, v.script.pkR));
    assert c.dh(ic.xSk, c.dhPub(rc.xSk)) == c.dh(rc.xSk, c.dhPub(ic.xSk));
  }

  /**
   Two runs that saw the same exchange: byte-identical HELLO, KEM_INIT and KEM_REPLY, the same H_2 and
   secrets; and if both finish, one set of session keys, each end naming the other's identity.
   */
  predicate Partners(c: Crypto, i: Initiator, r: Responder)
  {
    var (io, ro) := (InitOf(c, i), RespOf(c, r));
    && io.view.Some? && ro.view == io.view
    && (io.result.Ok? && ro.result.Ok? ==>
          && io.result.value.keys == ro.result.value.keys
          && io.result.value.peerId == c.hash(c.sigPub(r.cfg.sk))
          && ro.result.value.peerId == c.hash(c.sigPub(i.cfg.sk)))
  }

  lemma {:induction false} SameViewPartners(c: Crypto, i: Initiator, r: Responder)
    requires InitOf(c, i).view.Some? && RespOf(c, r).view == InitOf(c, i).view
    ensures Partners(c, i, r)
  {
    hide InitOf, RespOf, KeysOf, Verifies, Message;
    InitSigns(c, i);
    RespSigns(c, r);
  }

  // ---- who signed what ----

  predicate InitSigned(c: Crypto, i: Initiator, sk: Bytes, m: Bytes)
  {
    i.cfg.sk == sk && InitOf(c, i).view.Some? && Message(c, InitOf(c, i).view.value, ROLE_I) == m
  }

  predicate RespSigned(c: Crypto, r: Responder, sk: Bytes, m: Bytes)
  {
    r.cfg.sk == sk && RespOf(c, r).view.Some? && Message(c, RespOf(c, r).view.value, ROLE_R) == m
  }

  /** If m verifies under the key pair of sk at all, one of the owner's runs, in either role, signed it. */
  ghost predicate Unforgeable(c: Crypto, sk: Bytes, m: Bytes, ins: seq<Initiator>, rs: seq<Responder>)
  {
    Verifies(c, c.sigPub(sk), m) ==>
      || (exists k :: 0 <= k < |ins| && InitSigned(c, ins[k], sk, m))
      || (exists k :: 0 <= k < |rs| && RespSigned(c, rs[k], sk, m))
  }

  function InitHashed(c: Crypto, ins: seq<Initiator>): set<Bytes>
  {
    set k, x |
      && 0 <= k < |ins| && InitOf(c, ins[k]).view.Some?
      && x in Hashed(c, InitOf(c, ins[k]).view.value.script) :: x
  }

  function RespHashed(c: Crypto, rs: seq<Responder>): set<Bytes>
  {
    set k, x | 0 <= k < |rs| && RespOf(c, rs[k]).view.Some? && x in Hashed(c, RespOf(c, rs[k]).view.value.script) :: x
  }

  lemma {:induction false} CollisionFreeSubset(c: Crypto, xs: set<Bytes>, ys: set<Bytes>)
    requires CollisionFree(c, ys) && xs <= ys
    ensures CollisionFree(c, xs)
  {
  }

  lemma {:induction false} DigestLength(c: Crypto, s: Script)
    requires OutputLengths(c)
    ensures |H2(c, s)| == 32
  {
  }

  /**
   The initiator's side. It is pinned to the identity of sk and has verified its peer (so in
   particular whenever it finishes): then a responder run of sk signed exactly this exchange - the
   same HELLO, KEM_INIT and KEM_REPLY bytes, hence the same H_2, secrets and session keys.
   */
  lemma {:induction false} InitiatorAgrees(c: Crypto, i: Initiator, sk: Bytes, ins: seq<Initiator>, rs: seq<Responder>)
    requires OutputLengths(c) && ExchangeCorrect(c)
    requires InitOf(c, i).view.Some? && i.cfg.expected == Some(c.hash(c.sigPub(sk)))
    requires Unforgeable(c, sk, Message(c, InitOf(c, i).view.value, ROLE_R), ins, rs)
    requires CollisionFree(c, {InitOf(c, i).view.value.script.pkR, c.sigPub(sk)} +
                              Hashed(c, InitOf(c, i).view.value.script) + RespHashed(c, rs))
    ensures exists k :: 0 <= k < |rs| && rs[k].cfg.sk == sk && Partners(c, i, rs[k])
  {
    hide OutputLengths, ExchangeCorrect, InitOf, RespOf, Hashed, Verifies, InitHolds, RespHolds, H2, SignInput;
    var v := InitOf(c, i).view.value;
    InitSigns(c, i);
    PinnedKey(c, i, sk, v);
    NotOwnRole(c, v, sk, ins);
    var k :| 0 <= k < |rs| && RespSigned(c, rs[k], sk, Message(c, v, ROLE_R));
    RespMatches(c, i, v, rs[k], RespOf(c, rs[k]).view.value,
                {v.script.pkR, c.sigPub(sk)} + Hashed(c, v.script) + RespHashed(c, rs));
    SameViewPartners(c, i, rs[k]);
  }

  lemma {:induction false} PinnedKey(c: Crypto, i: Initiator, sk: Bytes, v: View)
    requires InitHolds(c, i.cfg, i.coins, v) && i.cfg.expected == Some(c.hash(c.sigPub(sk)))
    requires exists xs :: CollisionFree(c, xs) && v.script.pkR in xs && c.sigPub(sk) in xs
    ensures v.script.pkR == c.sigPub(sk)
  {
  }

  /** An initiator run never signs a responder's message: the role labels keep the two apart. */
  lemma {:induction false} NotOwnRole(c: Crypto, v: View, sk: Bytes, ins: seq<Initiator>)
    requires OutputLengths(c)
    ensures forall k :: 0 <= k < |ins| ==> !InitSigned(c, ins[k], sk, Message(c, v, ROLE_R))
  {
    hide InitOf, SignInput, OutputLengths, H2;
    forall k | 0 <= k < |ins| && InitSigned(c, ins[k], sk, Message(c, v, ROLE_R))
      ensures false
    {
      var u := InitOf(c, ins[k]).view.value;
      DigestLength(c, u.script);
      DigestLength(c, v.script);
      SignInputInjective(H2(c, u.script), ROLE_I, u.script.suite, H2(c, v.script), ROLE_R, v.script.suite);
    }
  }

  lemma {:induction false} RespMatches(c: Crypto, i: Initiator, v: View, r: Responder, u: View, xs: set<Bytes>)
    requires OutputLengths(c) && ExchangeCorrect(c) && CollisionFree(c, xs)
    requires InitHolds(c, i.cfg, i.coins, v)
    requires RespOf(c, r).view == Some(u)
    requires Message(c, u, ROLE_R) == Message(c, v, ROLE_R)
    requires Hashed(c, v.script) <= xs && Hashed(c, u.script) <= xs
    ensures u == v
  {
    hide OutputLengths, ExchangeCorrect, RespOf, Hashed, InitHolds, RespHolds, H2, SignInput, WellSized;
    RespSigns(c, r);
    DigestLength(c, u.script);
    DigestLength(c, v.script);
    SignInputInjective(H2(c, u.script), ROLE_R, u.script.suite, H2(c, v.script), ROLE_R, v.script.suite);
    InitWellSized(c, i.cfg, i.coins, v);
    RespWellSized(c, r.cfg, r.coins, u);
    CollisionFreeSubset(c, Hashed(c, u.script) + Hashed(c, v.script), xs);
    EqualDigests(c, u.script, v.script);
    SameSecrets(c, i.cfg, i.coins, v, r.cfg, r.coins, u);
  }

  /**
   The responder's side. It finished with the key pair of sk presented in HELLO: then an initiator run
   of sk, which had already verified this responder, signed exactly this exchange.
   */
  lemma {:induction false} ResponderAgrees(c: Crypto, r: Responder, sk: Bytes, ins: seq<Initiator>, rs: seq<Responder>)
    requires OutputLengths(c) && ExchangeCorrect(c)
    requires RespOf(c, r).view.Some? && RespOf(c, r).result.Ok?
    requires RespOf(c, r).view.value.script.pkI == c.sigPub(sk)
    requires Unforgeable(c, sk, Message(c, RespOf(c, r).view.value, ROLE_I), ins, rs)
    requires CollisionFree(c, Hashed(c, RespOf(c, r).view.value.script) + InitHashed(c, ins))
    ensures exists k :: 0 <= k < |ins| && ins[k].cfg.sk == sk && Partners(c, ins[k], r)
  {
    hide OutputLengths, ExchangeCorrect, InitOf, RespOf, Hashed, Verifies, InitHolds, RespHolds, H2, SignInput;
    var u := RespOf(c, r).view.value;
    RespSigns(c, r);
    NotOtherRole(c, u, sk, rs);
    var k :| 0 <= k < |ins| && InitSigned(c, ins[k], sk, Message(c, u, ROLE_I));
    InitMatches(c, ins[k], InitOf(c, ins[k]).view.value, r, u, Hashed(c, u.script) + InitHashed(c, ins));
    SameViewPartners(c, ins[k], r);
  }

  lemma {:induction false} NotOtherRole(c: Crypto, v: View, sk: Bytes, rs: seq<Responder>)
    requires OutputLengths(c)
    ensures forall k :: 0 <= k < |rs| ==> !RespSigned(c, rs[k], sk, Message(c, v, ROLE_I))
  {
    hide RespOf, SignInput, OutputLengths, H2;
    forall k | 0 <= k < |rs| && RespSigned(c, rs[k], sk, Message(c, v, ROLE_I))
      ensures false
    {
      var u := RespOf(c, rs[k]).view.value;
      DigestLength(c, u.script);
      DigestLength(c, v.script);
      SignInputInjective(H2(c, u.script), ROLE_R, u.script.suite, H2(c, v.script), ROLE_I, v.script.suite);
    }
  }

  lemma {:induction false} InitMatches(c: Crypto, i: Initiator, v: View, r: Responder, u: View, xs: set<Bytes>)
    requires OutputLengths(c) && ExchangeCorrect(c) && CollisionFree(c, xs)
    requires InitOf(c, i).view == Some(v)
    requires RespHolds(c, r.cfg, r.coins, u)
    requires Message(c, u, ROLE_I) == Message(c, v, ROLE_I)
    requires Hashed(c, v.script) <= xs && Hashed(c, u.script) <= xs
    ensures u == v
  {
    hide OutputLengths, ExchangeCorrect, InitOf, Hashed, InitHolds, RespHolds, H2, SignInput, WellSized;
    InitSigns(c, i);
    DigestLength(c, u.script);
    DigestLength(c, v.script);
    SignInputInjective(H2(c, u.script), ROLE_I, u.script.suite, H2(c, v.script), ROLE_I, v.script.suite);
    InitWellSized(c, i.cfg, i.coins, v);
    RespWellSized(c, r.cfg, r.coins, u);
    CollisionFreeSubset(c, Hashed(c, u.script) + Hashed(c, v.script), xs);
    EqualDigests(c, u.script, v.script);
    SameSecrets(c, i.cfg, i.coins, v, r.cfg, r.coins, u);
  }
}
