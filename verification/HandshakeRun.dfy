/** Both sides as they run: ordered reads and writes on a connection, a transcript object, shared caches. */
module HandshakeRuns {
  import opened ByteStrings
  import opened Frames
  import opened Primitives
  import opened Transcripts
  import opened Handshake
  import opened Sessions
  import Replay
  import PskStores

  // ---- frames on the connection ----

  method ExpectFrame(conn: Conn, want: byte) returns (r: Result<Bytes>)
    modifies conn`inbox
    ensures (r, conn.inbox) == Expect(old(conn.inbox), want)
  {
    hide ReadFrame, DecodeAlert;
    var f := conn.Read();
    match f {
      case Short => return Err(StreamEnded, false);
      case TooLarge => return Err(DecodeError, false);
      case Got(frame, _) =>
        if frame.typ == FRAME_ALERT {
          var a := DecodeAlert(frame.body);
          return Err(if a.None? then DecodeError else ErrorForAlert(a.value.code), false);
        }
        if frame.typ != want {
          return Err(DecodeError, false);
        }
        return Ok(frame.body);
    }
  }

  /** Answer a failure with an ALERT when it calls for one; a refused ALERT is dropped. */
  method Complain(conn: Conn, e: Error, alert: bool, ok: bool, ghost was: Bytes, ghost sent: seq<Frame>)
    requires conn.outbox == was + Envelopes(sent)
    modifies conn`outbox
    ensures conn.outbox == was + Envelopes(sent + (if alert && ok then [AlertFrame(e)] else []))
  {
    hide Envelope, Envelopes, EncodeAlert;
    assert sent + [] == sent;
    if alert {
      AlertFits(AlertForError(e));
      OneEnvelope(AlertFrame(e));
      Appended(was, sent, [AlertFrame(e)]);
      var _ := conn.Write(FRAME_ALERT, EncodeAlert(Alert(AlertForError(e), [])), ok);
    }
  }

  lemma {:induction false} Appended(was: Bytes, fs: seq<Frame>, gs: seq<Frame>)
    ensures was + Envelopes(fs) + Envelopes(gs) == was + Envelopes(fs + gs)
  {
    hide Envelopes;
    EnvelopesConcat(fs, gs);
    SeqAssoc(was, Envelopes(fs), Envelopes(gs));
  }

  /** Write the next frame of a run whose earlier frames are `sent`. */
  method WriteNext(conn: Conn, f: Frame, done: nat, w: nat, ghost was: Bytes, ghost sent: seq<Frame>)
    returns (e: Option<Error>)
    requires conn.outbox == was + Envelopes(sent)
    modifies conn`outbox
    ensures e == WriteOne(f, done, w)
    ensures conn.outbox == was + Envelopes(if e.None? then sent + [f] else sent)
  {
    hide Envelope, Envelopes;
    e := conn.Write(f.typ, f.body, done < w);
    OneEnvelope(f);
    Appended(was, sent, [f]);
  }

  // ---- initiator ----

  method MakeView(c: Crypto, cfg: InitCfg, coins: InitCoins, hello: Bytes, reply: Bytes)
    returns (r: Result<View>, h2: Bytes)
    ensures r == InitView(c, cfg, coins, hello, reply)
    ensures r.Ok? ==> h2 == H2(c, r.value.script)
  {
    hide DecodeKemReply, KemInitBody, HelloInput, KemInput, FullInput;
    h2 := [];
    var k := DecodeKemReply(reply);
    if k.None? {
      return Err(DecodeError, true), h2;
    }
    var x := c.dh(coins.xSk, k.value.x);
    if x.None? {
      return Err(AuthFailed, true), h2;
    }
    var ss := c.decap(coins.kemSk, k.value.ct);
    if ss.None? {
      return Err(AuthFailed, true), h2;
    }
    var pkR := k.value.staticPk;
    if !c.sigPkOk(pkR) {
      return Err(DecodeError, true), h2;
    }
    if cfg.expected.Some? {
      var got := c.hash(pkR);
      if cfg.expected.value != got {
        return Err(VmIdentityMismatch, true), h2;
      }
    }
    var pkI, init := c.sigPub(cfg.sk), KemInitBody(c, coins);
    var tr := new Transcript(c, Suite(cfg));
    tr.AbsorbHello(hello);
    tr.AbsorbKem(init, reply);
    h2 := tr.FinishFull(pkI, pkR, Schemes(cfg));
    return Ok(View(Script(Suite(cfg), hello, init, reply, pkI, pkR, Schemes(cfg)), x.value, ss.value)), h2;
  }

  method VerifyAuth(c: Crypto, ghost v: View, h2: Bytes, pk: Bytes, suite: byte, role: byte, body: Bytes)
    returns (r: Result<()>)
    requires h2 == H2(c, v.script) && suite == v.script.suite
    requires pk == (if role == ROLE_R then v.script.pkR else v.script.pkI)
    ensures r.Ok? <==>
      && role in {ROLE_I, ROLE_R} && |body| == 1 + SIG_LEN && body[0] == role
      && c.verify(pk, SignInput(h2, role, suite), body[1..])
    ensures r == CheckAuth(c, v, role, body)
  {
    hide SignInput, H2;
    var a := DecodeAuth(body);
    if a.None? {
      return Err(DecodeError, true);
    }
    if a.value.role != role {
      return Err(AuthFailed, true);
    }
    if !c.verify(pk, SignInput(h2, role, suite), a.value.signature) {
      return Err(AuthFailed, true);
    }
    return Ok(());
  }

  /** The own AUTH body; with a signature scheme that verifies what it signs, the peer accepts it. */
  method SignAuth(c: Crypto, sk: Bytes, ghost v: View, h2: Bytes, suite: byte, role: byte, coins: Bytes)
    returns (r: Result<Bytes>)
    requires h2 == H2(c, v.script) && suite == v.script.suite
    ensures SignCorrect(c) && OutputLengths(c) && role in {ROLE_I, ROLE_R} &&
            c.sigPub(sk) == (if role == ROLE_R then v.script.pkR else v.script.pkI) ==>
              r.Ok? && CheckAuth(c, v, role, r.value).Ok?
    ensures r == MakeAuth(c, sk, v, role, coins)
  {
    hide SignInput, H2;
    var sig := c.sign(sk, SignInput(h2, role, suite), coins);
    if |sig| != SIG_LEN {
      return Err(AuthFailed, true);
    }
    assert ([role] + sig)[1..] == sig;
    return Ok([role] + sig);
  }

  method InitiateFull(c: Crypto, cfg: InitCfg, coins: InitCoins, now: int, w: nat, conn: Conn) returns (r: Result<Done>)
    modifies conn
    ensures var o := InitFull(c, cfg, coins, now, w, old(conn.inbox));
      r == o.result && conn.inbox == o.rest && conn.outbox == old(conn.outbox) + Envelopes(o.frames)
  {
    hide Envelopes, EncodeHello, OwnHello, KemInitBody, WriteOne, InitReply;
    ghost var was := conn.outbox;
    NoFrames(was);
    var hello := EncodeHello(OwnHello(c, cfg, coins, now));
    if hello.None? {
      return Err(DecodeError, false);
    }
    var f1 := Frame(FRAME_HELLO, hello.value);
    var e1 := WriteNext(conn, f1, 1, w, was, []);
    if e1.Some? {
      return Err(e1.value, false);
    }
    assert [] + [f1] == [f1];
    var f2 := Frame(FRAME_KEM_INIT, KemInitBody(c, coins));
    var e2 := WriteNext(conn, f2, 2, w, was, [f1]);
    if e2.Some? {
      return Err(e2.value, false);
    }
    assert [f1] + [f2] == [f1, f2];
    r := InitiateAuth(c, cfg, coins, w, hello.value, conn, was, [f1, f2]);
  }

  lemma {:induction false} NoFrames(was: Bytes)
    ensures was + Envelopes([]) == was
  {
  }

  method InitiateAuth(c: Crypto, cfg: InitCfg, coins: InitCoins, w: nat, hello: Bytes, conn: Conn,
                      ghost was: Bytes, ghost sent: seq<Frame>) returns (r: Result<Done>)
    requires conn.outbox == was + Envelopes(sent) && |sent| == 2
    modifies conn
    ensures var o := InitReply(c, cfg, coins, w, hello, sent, old(conn.inbox));
      r == o.result && conn.inbox == o.rest && conn.outbox == was + Envelopes(o.frames)
  {
    hide Envelopes, Expect, InitView, CheckAuth, MakeAuth, AlertFrame, H2, WriteOne, DeriveSession;
    var reply := ExpectFrame(conn, FRAME_KEM_REPLY);
    if reply.Err? {
      Complain(conn, reply.error, reply.alert, 3 < w, was, sent);
      return Err(reply.error, reply.alert);
    }
    var v, h2 := MakeView(c, cfg, coins, hello, reply.value);
    if v.Err? {
      Complain(conn, v.error, v.alert, 3 < w, was, sent);
      return Err(v.error, v.alert);
    }
    var auth := ExpectFrame(conn, FRAME_AUTH);
    if auth.Err? {
      Complain(conn, auth.error, auth.alert, 3 < w, was, sent);
      return Err(auth.error, auth.alert);
    }
    var pkR, suite := v.value.script.pkR, v.value.script.suite;
    var ok := VerifyAuth(c, v.value, h2, pkR, suite, ROLE_R, auth.value);
    if ok.Err? {
      Complain(conn, ok.error, ok.alert, 3 < w, was, sent);
      return Err(ok.error, ok.alert);
    }
    var mine := SignAuth(c, cfg.sk, v.value, h2, suite, ROLE_I, coins.sig);
    if mine.Err? {
      Complain(conn, mine.error, mine.alert, 3 < w, was, sent);
      return Err(mine.error, mine.alert);
    }
    var e := WriteNext(conn, Frame(FRAME_AUTH, mine.value), 3, w, was, sent);
    if e.Some? {
      return Err(e.value, false);
    }
    return Ok(Done(DeriveSession(c, h2, v.value.x, v.value.ss), c.hash(pkR), suite));
  }

  method InitiateResume(c: Crypto, cfg: InitCfg, coins: InitCoins, p: ClientPsk, now: int, w: nat,
                        conn: Conn) returns (r: Result<Done>)
    modifies conn
    ensures var o := InitResume(c, cfg, coins, p, now, w, old(conn.inbox));
      r == o.result && conn.inbox == o.rest && conn.outbox == old(conn.outbox) + Envelopes(o.frames)
  {
    hide Envelopes, EncodeHelloPsk, HelloPskOf, WriteOne, AlertFrame, ReadFrame, DecodeAlert, DeriveResumed, HelloInput;
    ghost var was := conn.outbox;
    NoFrames(was);
    var hello := EncodeHelloPsk(HelloPskOf(cfg, c, coins, p.id, now));
    var f := Frame(FRAME_HELLO_PSK, hello);
    var e := WriteNext(conn, f, 1, w, was, []);
    if e.Some? {
      return Err(e.value, false);
    }
    assert [] + [f] == [f];
    var got := conn.Read();
    match got {
      case Short => return Err(StreamEnded, false);
      case TooLarge => return Err(DecodeError, false);
      case Got(g, _) =>
        r := FinishResume(c, cfg, coins, p, hello, g);
        if r.Err? {
          Complain(conn, r.error, r.alert, 2 < w, was, [f]);
        }
    }
  }

  method FinishResume(c: Crypto, cfg: InitCfg, coins: InitCoins, p: ClientPsk, hello: Bytes, g: Frame)
    returns (r: Result<Done>)
    ensures r == InitResumed(c, cfg, coins, p, hello, g)
  {
    hide DecodeAlert, DeriveResumed, HelloInput;
    if g.typ == FRAME_ALERT {
      var a := DecodeAlert(g.body);
      return Err(if a.None? then DecodeError else ErrorForAlert(a.value.code), false);
    }
    if g.typ != FRAME_KEM_REPLY || |g.body| != X_LEN {
      return Err(DecodeError, true);
    }
    var x := c.dh(coins.xSk, g.body);
    if x.None? {
      return Err(AuthFailed, true);
    }
    var tr := new Transcript(c, Suite(cfg));
    tr.AbsorbHello(hello);
    var h2 := tr.FinishPsk(g.body);
    return Ok(Done(DeriveResumed(c, h2, x.value, p.psk), p.peerId, Suite(cfg)));
  }

  /** The initiator's Run, and the session it opens. */
  method Initiate(c: Crypto, cfg: InitCfg, coins: InitCoins, now: int, start: int, w: nat, conn: Conn)
    returns (s: Session?, r: Result<Done>)
    modifies conn
    ensures var o := InitRun(c, cfg, coins, now, w, old(conn.inbox));
      r == o.result && conn.inbox == o.rest && conn.outbox == old(conn.outbox) + InitBytes(o)
    ensures r.Err? <==> s == null
    ensures s != null ==> fresh(s) && s.conn == conn && s.peerId == r.value.peerId && s.psk == Some(r.value.keys.psk)
    ensures s != null ==>
      s.Sender() == FirstSend(ROLE_I, r.value.keys, start) && s.Receiver() == FirstRecv(ROLE_I, r.value.keys)
  {
    hide Envelopes, InitFull, InitResume;
    s := null;
    NoFrames([]);
    if Suite(cfg) != SUITE_V1 {
      return null, Err(UnsupportedSuite, false);
    }
    if w == 0 {
      return null, Err(WriteFailed, false);
    }
    ghost var was := conn.outbox;
    conn.outbox := conn.outbox + MAGIC;
    if cfg.resume.Some? && cfg.resume.value.until > now {
      r := InitiateResume(c, cfg, coins, cfg.resume.value, now, w, conn);
    } else {
      r := InitiateFull(c, cfg, coins, now, w, conn);
    }
    ghost var o := InitRun(c, cfg, coins, now, w, old(conn.inbox));
    MagicSent(c, cfg, coins, now, w, old(conn.inbox));
    SeqAssoc(was, MAGIC, Envelopes(o.frames));
    if r.Ok? {
      s := NewSession(c, conn, ROLE_I, r.value.peerId, r.value.keys, start);
    }
  }

  lemma {:induction false} MagicSent(c: Crypto, cfg: InitCfg, coins: InitCoins, now: int, w: nat, inbox: Bytes)
    requires Suite(cfg) == SUITE_V1 && w > 0
    ensures InitRun(c, cfg, coins, now, w, inbox).magic
  {
    hide Expect, InitView, CheckAuth, MakeAuth, EncodeHello, OwnHello, KemInitBody, WriteOne, ReadFrame, InitResumed;
  }

  // ---- responder ----

  ghost function CacheView(cache: Replay.ReplayCache?): Option<Replay.Cache>
    reads cache
  {
    if cache == null then None else Some(cache.View())
  }

  ghost function StoreView(store: PskStores.PskStore?): Option<PskStores.Store>
    reads store
  {
    if store == null then None else Some(store.entries)
  }

  method AcceptSuite(cfg: RespCfg, s: byte) returns (ok: bool)
    ensures ok == AcceptsSuite(cfg, s)
  {
    if s != SUITE_V1 {
      return false;
    }
    if |cfg.accepted| == 0 {
      return s == SUITE_V1;
    }
    for i := 0 to |cfg.accepted|
      invariant s !in cfg.accepted[..i]
    {
      if cfg.accepted[i] == s {
        return true;
      }
    }
    return false;
  }

  method PassGate(cache: Replay.ReplayCache?, k: Replay.Key, ts: nat, now: int) returns (pass: bool)
    requires ts < TWO64 && -TWO63 <= now < TWO63
    modifies cache
    ensures (CacheView(cache), pass) == Gate(old(CacheView(cache)), k, ts, now)
  {
    hide Replay.InWindow, Replay.SeenOrAddS;
    if cache == null {
      return true;
    }
    var ok := Replay.CheckTimestamp(ts, now);
    if !ok {
      return false;
    }
    var seen := cache.SeenOrAdd(k.id, k.random, now);
    return !seen;
  }

  method AdmitHello(c: Crypto, cfg: RespCfg, cache: Replay.ReplayCache?, body: Bytes, now: int)
    returns (r: Result<Hello>)
    requires -TWO63 <= now < TWO63
    modifies cache
    ensures (r, CacheView(cache)) == CheckHello(c, cfg, old(CacheView(cache)), body, now)
  {
    hide DecodeHello, Gate, AcceptsSuite;
    var d := ReadHello(body);
    if d.None? {
      return Err(DecodeError, true);
    }
    var h := d.value;
    var known := AcceptSuite(cfg, h.suite);
    if !known {
      return Err(UnsupportedSuite, true);
    }
    if cfg.strict {
      if h.pqMode == MODE_CLASSICAL {
        return Err(DowngradeRefused, true);
      }
      for i := 0 to |h.schemes|
        invariant forall k :: 0 <= k < i ==> h.schemes[k] == SUITE_V1
      {
        if h.schemes[i] != SUITE_V1 {
          return Err(DowngradeRefused, true);
        }
      }
    }
    DecodedTimestamp(body);
    var pass := PassGate(cache, Replay.Key(h.clientId, h.random), h.timestamp, now);
    if !pass {
      return Err(ReplayDetected, true);
    }
    if c.hash(h.staticPk) != h.clientId {
      return Err(AuthFailed, true);
    }
    if !c.sigPkOk(h.staticPk) {
      return Err(DecodeError, true);
    }
    return Ok(h);
  }

  lemma {:induction false} DecodedTimestamp(body: Bytes)
    ensures DecodeHello(body).Some? ==> DecodeHello(body).value.timestamp < TWO64
    ensures DecodeHelloPsk(body).Some? ==> DecodeHelloPsk(body).value.timestamp < TWO64
  {
    PowFacts();
  }

  method MakeReply(c: Crypto, cfg: RespCfg, coins: RespCoins, h: Hello, hello: Bytes, init: Bytes)
    returns (r: Result<View>)
    ensures r == RespView(c, cfg, coins, h, hello, init)
    ensures r.Ok? && ExchangeCorrect(c) && OutputLengths(c) ==> forall xSk, kemSk ::
              init == EncodeKemInit(KemInit(c.dhPub(xSk), c.kemPub(kemSk))) ==> Reveals(c, r.value, xSk, kemSk)
  {
    hide DecodeKemInit, EncodeKemReply, Reveals;
    var k := DecodeKemInit(init);
    if k.None? {
      return Err(DecodeError, true);
    }
    var x := c.dh(coins.xSk, k.value.x);
    if x.None? {
      return Err(AuthFailed, true);
    }
    if !c.kemPkOk(k.value.kem) {
      return Err(DecodeError, true);
    }
    var p := c.encap(k.value.kem, coins.kem);
    if p.None? {
      return Err(AuthFailed, true);
    }
    if |p.value.0| != KEM_CT {
      return Err(AuthFailed, true);
    }
    var pkR := c.sigPub(cfg.sk);
    var reply := EncodeKemReply(KemReply(c.dhPub(coins.xSk), p.value.0, pkR));
    if reply.None? {
      return Err(DecodeError, true);
    }
    r := Ok(View(Script(h.suite, hello, init, reply.value, h.staticPk, pkR, h.schemes), x.value, p.value.1));
    if ExchangeCorrect(c) && OutputLengths(c) {
      ReplyReveals(c, cfg, coins, h, hello, init);
    }
  }

  /** The initiator with these secrets gets this view's secrets out of its KEM_REPLY. */
  predicate Reveals(c: Crypto, v: View, xSk: Bytes, kemSk: Bytes)
  {
    var k := DecodeKemReply(v.script.reply);
    k.Some? && k.value.staticPk == v.script.pkR && c.dh(xSk, k.value.x) == Some(v.x) &&
    c.decap(kemSk, k.value.ct) == Some(v.ss)
  }

  lemma {:induction false} ReplyReveals(c: Crypto, cfg: RespCfg, coins: RespCoins, h: Hello, hello: Bytes, init: Bytes)
    requires ExchangeCorrect(c) && OutputLengths(c) && RespView(c, cfg, coins, h, hello, init).Ok?
    ensures forall xSk, kemSk :: init == EncodeKemInit(KemInit(c.dhPub(xSk), c.kemPub(kemSk))) ==>
              Reveals(c, RespView(c, cfg, coins, h, hello, init).value, xSk, kemSk)
  {
    forall xSk, kemSk | init == EncodeKemInit(KemInit(c.dhPub(xSk), c.kemPub(kemSk)))
      ensures Reveals(c, RespView(c, cfg, coins, h, hello, init).value, xSk, kemSk)
    {
      var k := KemInit(c.dhPub(xSk), c.kemPub(kemSk));
      KemInitRoundTrip(k);
      var ct := c.encap(k.kem, coins.kem).value.0;
      KemReplyRoundTrip(KemReply(c.dhPub(coins.xSk), ct, c.sigPub(cfg.sk)));
      assert c.dh(xSk, c.dhPub(coins.xSk)) == c.dh(coins.xSk, c.dhPub(xSk));
    }
  }

  /** The state a run leaves behind, and its result, are those of the specification. */
  ghost predicate Matches(o: RespOut, r: Result<Done>, inbox: Bytes, outbox: Bytes, was: Bytes, st: RespSt)
  {
    r == o.result && inbox == o.rest && outbox == was + Envelopes(o.frames) && st == o.st
  }

  method RespondFull(c: Crypto, cfg: RespCfg, coins: RespCoins, cache: Replay.ReplayCache?, store: PskStores.PskStore?,
                     now: int, w: nat, hello: Bytes, conn: Conn) returns (r: Result<Done>)
    requires -TWO63 <= now < TWO63 && (store != null ==> store.c == c)
    modifies conn, cache, store
    ensures
      var st := RespSt(old(CacheView(cache)), old(StoreView(store)));
      var o := RespFull(c, cfg, coins, st, now, w, hello, old(conn.inbox));
      Matches(o, r, conn.inbox, conn.outbox, old(conn.outbox), RespSt(CacheView(cache), StoreView(store)))
  {
    hide Envelopes, Expect, CheckHello, RespView, AlertFrame, RespAuth;
    ghost var was := conn.outbox;
    NoFrames(was);
    var h := AdmitHello(c, cfg, cache, hello, now);
    if h.Err? {
      Complain(conn, h.error, h.alert, 0 < w, was, []);
      return Err(h.error, h.alert);
    }
    var init := ExpectFrame(conn, FRAME_KEM_INIT);
    if init.Err? {
      Complain(conn, init.error, init.alert, 0 < w, was, []);
      return Err(init.error, init.alert);
    }
    var v := MakeReply(c, cfg, coins, h.value, hello, init.value);
    if v.Err? {
      Complain(conn, v.error, v.alert, 0 < w, was, []);
      return Err(v.error, v.alert);
    }
    r := RespondAuth(c, cfg, coins, cache, store, now, w, v.value, conn);
  }

  method RespondAuth(c: Crypto, cfg: RespCfg, coins: RespCoins, ghost cache: Replay.ReplayCache?,
                     store: PskStores.PskStore?, now: int, w: nat, v: View, conn: Conn) returns (r: Result<Done>)
    requires store != null ==> store.c == c
    modifies conn, store
    ensures
      var st := RespSt(old(CacheView(cache)), old(StoreView(store)));
      var o := RespAuth(c, cfg, coins, st, now, w, v, old(conn.inbox));
      Matches(o, r, conn.inbox, conn.outbox, old(conn.outbox), RespSt(old(CacheView(cache)), StoreView(store)))
  {
    hide Envelopes, Expect, CheckAuth, MakeAuth, AlertFrame, H2, WriteOne, DeriveSession, HelloInput, KemInput,
         FullInput;
    ghost var was := conn.outbox;
    NoFrames(was);
    var f1 := Frame(FRAME_KEM_REPLY, v.script.reply);
    var e1 := WriteNext(conn, f1, 0, w, was, []);
    if e1.Some? {
      return Err(e1.value, false);
    }
    assert [] + [f1] == [f1];
    var h2 := Digest(c, v.script);
    var mine := SignAuth(c, cfg.sk, v, h2, v.script.suite, ROLE_R, coins.sig);
    if mine.Err? {
      Complain(conn, mine.error, mine.alert, 1 < w, was, [f1]);
      return Err(mine.error, mine.alert);
    }
    var f2 := Frame(FRAME_AUTH, mine.value);
    var e2 := WriteNext(conn, f2, 1, w, was, [f1]);
    if e2.Some? {
      return Err(e2.value, false);
    }
    assert [f1] + [f2] == [f1, f2];
    var auth := ExpectFrame(conn, FRAME_AUTH);
    if auth.Err? {
      Complain(conn, auth.error, auth.alert, 2 < w, was, [f1, f2]);
      return Err(auth.error, auth.alert);
    }
    var ok := VerifyAuth(c, v, h2, v.script.pkI, v.script.suite, ROLE_I, auth.value);
    if ok.Err? {
      Complain(conn, ok.error, ok.alert, 2 < w, was, [f1, f2]);
      return Err(ok.error, ok.alert);
    }
    var keys := DeriveSession(c, h2, v.x, v.ss);
    var id := c.hash(v.script.pkI);
    if store != null {
      var _ := store.Issue(keys.psk, id, now);
    }
    return Ok(Done(keys, id, v.script.suite));
  }

  method Digest(c: Crypto, s: Script) returns (h2: Bytes)
    ensures h2 == H2(c, s)
  {
    hide HelloInput, KemInput, FullInput;
    var tr := new Transcript(c, s.suite);
    tr.AbsorbHello(s.hello);
    tr.AbsorbKem(s.init, s.reply);
    h2 := tr.FinishFull(s.pkI, s.pkR, s.schemes);
  }

  method AdmitHelloPsk(c: Crypto, cfg: RespCfg, cache: Replay.ReplayCache?, store: PskStores.PskStore?, body: Bytes,
                       now: int)
    returns (r: Result<(HelloPsk, PskStores.Entry)>)
    requires -TWO63 <= now < TWO63
    modifies cache, store
    ensures (r, RespSt(CacheView(cache), StoreView(store))) ==
      CheckHelloPsk(c, cfg, RespSt(old(CacheView(cache)), old(StoreView(store))), body, now)
  {
    hide DecodeHelloPsk, Gate, AcceptsSuite;
    var d := DecodeHelloPsk(body);
    if d.None? {
      return Err(DecodeError, true);
    }
    var h := d.value;
    var known := AcceptSuite(cfg, h.suite);
    if !known {
      return Err(UnsupportedSuite, true);
    }
    if cfg.strict && h.pqMode == MODE_CLASSICAL {
      return Err(DowngradeRefused, true);
    }
    DecodedTimestamp(body);
    var pass := PassGate(cache, Replay.Key(c.hash(h.pskId), h.random), h.timestamp, now);
    if !pass {
      return Err(ReplayDetected, true);
    }
    if store == null {
      return Err(PskUnknown, true);
    }
    var hit := store.Redeem(h.pskId, now);
    if hit.None? {
      return Err(PskUnknown, true);
    }
    return Ok((h, hit.value));
  }

  method RespondResume(c: Crypto, cfg: RespCfg, coins: RespCoins, cache: Replay.ReplayCache?,
                       store: PskStores.PskStore?, now: int, w: nat, hello: Bytes, conn: Conn) returns (r: Result<Done>)
    requires -TWO63 <= now < TWO63 && (store != null ==> store.c == c)
    modifies conn, cache, store
    ensures
      var st := RespSt(old(CacheView(cache)), old(StoreView(store)));
      var o := RespResume(c, cfg, coins, st, now, w, hello, old(conn.inbox));
      Matches(o, r, conn.inbox, conn.outbox, old(conn.outbox), RespSt(CacheView(cache), StoreView(store)))
  {
    hide Envelopes, CheckHelloPsk, AlertFrame, WriteOne, DeriveResumed, HelloInput;
    ghost var was := conn.outbox;
    NoFrames(was);
    var d := AdmitHelloPsk(c, cfg, cache, store, hello, now);
    if d.Err? {
      Complain(conn, d.error, d.alert, 0 < w, was, []);
      return Err(d.error, d.alert);
    }
    var (h, e) := d.value;
    var x := c.dh(coins.xSk, h.x);
    if x.None? {
      Complain(conn, AuthFailed, true, 0 < w, was, []);
      return Err(AuthFailed, true);
    }
    var eph := c.dhPub(coins.xSk);
    var f := Frame(FRAME_KEM_REPLY, eph);
    var err := WriteNext(conn, f, 0, w, was, []);
    if err.Some? {
      return Err(err.value, false);
    }
    assert [] + [f] == [f];
    var tr := new Transcript(c, h.suite);
    tr.AbsorbHello(hello);
    var h2 := tr.FinishPsk(eph);
    var keys := DeriveResumed(c, h2, x.value, e.psk);
    if store != null {
      var _ := store.Issue(keys.psk, e.clientId, now);
    }
    return Ok(Done(keys, e.clientId, h.suite));
  }

  lemma {:induction false} TooLargeRest(stream: Bytes)
    ensures ReadFrame(stream).TooLarge? ==> |stream| >= 5
  {
  }

  /** The responder's Run, and the session it opens. */
  method Respond(c: Crypto, cfg: RespCfg, coins: RespCoins, cache: Replay.ReplayCache?, store: PskStores.PskStore?,
                 now: int, w: nat, conn: Conn) returns (s: Session?, r: Result<Done>)
    requires -TWO63 <= now < TWO63 && (store != null ==> store.c == c)
    modifies conn, cache, store
    ensures
      var st := RespSt(old(CacheView(cache)), old(StoreView(store)));
      var o := RespRun(c, cfg, coins, st, now, w, old(conn.inbox));
      Matches(o, r, conn.inbox, conn.outbox, old(conn.outbox), RespSt(CacheView(cache), StoreView(store)))
    ensures r.Err? <==> s == null
    ensures s != null ==> fresh(s) && s.conn == conn && s.peerId == r.value.peerId && s.psk == None
    ensures s != null ==>
      s.Sender() == FirstSend(ROLE_R, r.value.keys, now) && s.Receiver() == FirstRecv(ROLE_R, r.value.keys)
  {
    hide Envelopes, RespFull, RespResume, AlertFrame, ReadFrame, DecodeAlert;
    s := null;
    ghost var was := conn.outbox;
    NoFrames(was);
    if cfg.strict && cache == null {
      return null, Err(Misconfigured, false);
    }
    if |conn.inbox| < 4 {
      return null, Err(StreamEnded, false);
    }
    var magic := conn.inbox[..4];
    conn.inbox := conn.inbox[4..];
    if magic != MAGIC {
      return null, Err(MagicMismatch, false);
    }
    var first := conn.Read();
    match first {
      case Short => return null, Err(StreamEnded, false);
      case TooLarge =>
        TooLargeRest(old(conn.inbox)[4..]);
        assert old(conn.inbox)[4..][5..] == old(conn.inbox)[9..];
        return null, Err(DecodeError, false);
      case Got(f, _) =>
        if f.typ == FRAME_HELLO {
          r := RespondFull(c, cfg, coins, cache, store, now, w, f.body, conn);
        } else if f.typ == FRAME_HELLO_PSK {
          r := RespondResume(c, cfg, coins, cache, store, now, w, f.body, conn);
        } else if f.typ == FRAME_ALERT {
          var a := DecodeAlert(f.body);
          return null, Err(if a.None? then DecodeError else ErrorForAlert(a.value.code), false);
        } else {
          Complain(conn, DecodeError, true, 0 < w, was, []);
          return null, Err(DecodeError, true);
        }
    }
    if r.Ok? {
      s := NewSession(c, conn, ROLE_R, r.value.peerId, r.value.keys, now);
    }
  }
}
