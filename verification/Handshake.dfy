/** The two sides of the handshake, each as a function of its configuration, coins, clock and input. */
module Handshake {
  import opened ByteStrings
  import opened Frames
  import opened Primitives
  import opened Transcripts
  import Replay
  import PskStores

  const MAGIC: Bytes := [0x5A, 0x50, 0x51, 0x31]
  const SUITE_V1: byte := 0x01
  const MODE_CLASSICAL: byte := 0x00
  const MODE_PQ_ONLY: byte := 0x02

  /** A failure, and whether an ALERT is sent for it. */
  datatype Result<+T> = Ok(value: T) | Err(error: Error, alert: bool)

  /** What a finished handshake hands to the session. */
  datatype Done = Done(keys: SessionKeys, peerId: Bytes, suite: byte)

  /** What a run has signed, and the secrets it holds at that point. */
  datatype View = View(script: Script, x: Bytes, ss: Bytes)

  function KeysOf(c: Crypto, v: View): SessionKeys
  {
    DeriveSession(c, H2(c, v.script), v.x, v.ss)
  }

  /** One frame of the wanted type, or the error an ALERT or anything else stands for. */
  function Expect(inbox: Bytes, want: byte): (Result<Bytes>, Bytes)
  {
    match ReadFrame(inbox)
    case Short => (Err(StreamEnded, false), inbox)
    case TooLarge => (Err(DecodeError, false), inbox[5..])
    case Got(f, rest) =>
      if f.typ == FRAME_ALERT then
        match DecodeAlert(f.body)
        case None => (Err(DecodeError, false), rest)
        case Some(a) => (Err(ErrorForAlert(a.code), false), rest)
      else if f.typ != want then (Err(DecodeError, false), rest)
      else (Ok(f.body), rest)
  }

  function AlertFrame(e: Error): Frame
  {
    Frame(FRAME_ALERT, EncodeAlert(Alert(AlertForError(e), [])))
  }

  // ---- initiator ----

  datatype ClientPsk = ClientPsk(id: Bytes, psk: Bytes, peerId: Bytes, until: int)

  function MakeClientPsk(c: Crypto, psk: Bytes, peerId: Bytes, now: int): ClientPsk
  {
    ClientPsk(PskId(c, psk), psk, peerId, now + PskStores.PSK_TTL)
  }

  datatype InitCfg = InitCfg(sk: Bytes, expected: Option<Bytes>, strict: bool, pqMode: byte, suite: byte,
                             schemes: Bytes, resume: Option<ClientPsk>)

  datatype InitCoins = InitCoins(random: Bytes, xSk: Bytes, kemSk: Bytes, sig: Bytes)

  function Suite(cfg: InitCfg): byte
  {
    if cfg.suite == 0 then SUITE_V1 else cfg.suite
  }

  function Schemes(cfg: InitCfg): Bytes
  {
    if cfg.schemes == [] then [Suite(cfg)] else cfg.schemes
  }

  function Mode(cfg: InitCfg): byte
  {
    if cfg.pqMode == 0 && cfg.strict then MODE_PQ_ONLY else cfg.pqMode
  }

  function OwnHello(c: Crypto, cfg: InitCfg, coins: InitCoins, now: int): Hello
  {
    var pk := c.sigPub(cfg.sk);
    Hello(Suite(cfg), Mode(cfg), coins.random, now % TWO64, c.hash(pk), Schemes(cfg), pk)
  }

  function KemInitBody(c: Crypto, coins: InitCoins): Bytes
  {
    EncodeKemInit(KemInit(c.dhPub(coins.xSk), c.kemPub(coins.kemSk)))
  }

  /** From KEM_REPLY to the point where the responder's AUTH can be checked. */
  function InitView(c: Crypto, cfg: InitCfg, coins: InitCoins, hello: Bytes, reply: Bytes): Result<View>
  {
    match DecodeKemReply(reply)
    case None => Err(DecodeError, true)
    case Some(k) =>
      match c.dh(coins.xSk, k.x)
      case None => Err(AuthFailed, true)
      case Some(x) =>
        match c.decap(coins.kemSk, k.ct)
        case None => Err(AuthFailed, true)
        case Some(ss) =>
          if !c.sigPkOk(k.staticPk) then Err(DecodeError, true)
          else if cfg.expected.Some? && cfg.expected.value != c.hash(k.staticPk) then Err(VmIdentityMismatch, true)
          else
            Ok(View(Script(Suite(cfg), hello, KemInitBody(c, coins), reply, c.sigPub(cfg.sk), k.staticPk, Schemes(cfg)),
                    x, ss))
  }

  /** Checking the peer's AUTH over the own transcript. */
  function CheckAuth(c: Crypto, v: View, role: byte, body: Bytes): Result<()>
  {
    match DecodeAuth(body)
    case None => Err(DecodeError, true)
    case Some(a) =>
      var pk := if role == ROLE_R then v.script.pkR else v.script.pkI;
      if a.role != role then Err(AuthFailed, true)
      else if !c.verify(pk, SignInput(H2(c, v.script), role, v.script.suite), a.signature) then Err(AuthFailed, true)
      else Ok(())
  }

  /** The own AUTH body, or nothing when the signature has an unexpected length. */
  function MakeAuth(c: Crypto, sk: Bytes, v: View, role: byte, coins: Bytes): Result<Bytes>
  {
    var sig := c.sign(sk, SignInput(H2(c, v.script), role, v.script.suite), coins);
    if |sig| != SIG_LEN then Err(AuthFailed, true) else Ok([role] + sig)
  }

  /** A run: whether the magic went out, frames written, input left, what was signed, result. */
  datatype InitOut = InitOut(magic: bool, frames: seq<Frame>, rest: Bytes, view: Option<View>, result: Result<Done>)

  /** Ending with a failure; the transport takes `w` writes in all, the magic being the first. */
  function InitFail<T>(frames: seq<Frame>, rest: Bytes, view: Option<View>, r: Result<T>, w: nat): InitOut
    requires r.Err?
  {
    InitOut(true, frames + (if r.alert && |frames| + 1 < w then [AlertFrame(r.error)] else []), rest, view,
            Err(r.error, r.alert))
  }

  /** Writing one more frame: refused when too large, or when the transport fails. */
  function WriteOne(f: Frame, done: nat, w: nat): Option<Error>
  {
    if !Sendable(f) then Some(DecodeError) else if done >= w then Some(WriteFailed) else None
  }

  function InitFull(c: Crypto, cfg: InitCfg, coins: InitCoins, now: int, w: nat, inbox: Bytes): InitOut
  {
    match EncodeHello(OwnHello(c, cfg, coins, now))
    case None => InitOut(true, [], inbox, None, Err(DecodeError, false))
    case Some(hello) =>
      var f1 := Frame(FRAME_HELLO, hello);
      var e1 := WriteOne(f1, 1, w);
      if e1.Some? then InitOut(true, [], inbox, None, Err(e1.value, false))
      else
        var f2 := Frame(FRAME_KEM_INIT, KemInitBody(c, coins));
        var e2 := WriteOne(f2, 2, w);
        if e2.Some? then InitOut(true, [f1], inbox, None, Err(e2.value, false))
        else InitReply(c, cfg, coins, w, hello, [f1, f2], inbox)
  }

  function InitReply(c: Crypto, cfg: InitCfg, coins: InitCoins, w: nat, hello: Bytes, sent: seq<Frame>,
                     inbox: Bytes): InitOut
  {
    var (reply, rest) := Expect(inbox, FRAME_KEM_REPLY);
    if reply.Err? then InitFail(sent, rest, None, reply, w)
    else
      var v := InitView(c, cfg, coins, hello, reply.value);
      if v.Err? then InitFail(sent, rest, None, v, w)
      else InitAuth(c, cfg, coins, w, v.value, sent, rest)
  }

  function InitAuth(c: Crypto, cfg: InitCfg, coins: InitCoins, w: nat, v: View, sent: seq<Frame>, inbox: Bytes): InitOut
  {
    var (auth, rest) := Expect(inbox, FRAME_AUTH);
    if auth.Err? then InitFail(sent, rest, None, auth, w)
    else
      var ok := CheckAuth(c, v, ROLE_R, auth.value);
      if ok.Err? then InitFail(sent, rest, None, ok, w)
      else
        var mine := MakeAuth(c, cfg.sk, v, ROLE_I, coins.sig);
        if mine.Err? then InitFail(sent, rest, Some(v), mine, w)
        else
          var f := Frame(FRAME_AUTH, mine.value);
          var e := WriteOne(f, |sent| + 1, w);
          if e.Some? then InitOut(true, sent, rest, Some(v), Err(e.value, false))
          else InitOut(true, sent + [f], rest, Some(v), Ok(Done(KeysOf(c, v), c.hash(v.script.pkR), v.script.suite)))
  }

  function HelloPskOf(cfg: InitCfg, c: Crypto, coins: InitCoins, id: Bytes, now: int): HelloPsk
  {
    HelloPsk(Suite(cfg), Mode(cfg), coins.random, now % TWO64, id, c.dhPub(coins.xSk))
  }

  function InitResume(c: Crypto, cfg: InitCfg, coins: InitCoins, p: ClientPsk, now: int, w: nat, inbox: Bytes): InitOut
  {
    var hello := EncodeHelloPsk(HelloPskOf(cfg, c, coins, p.id, now));
    var f := Frame(FRAME_HELLO_PSK, hello);
    var e := WriteOne(f, 1, w);
    if e.Some? then InitOut(true, [], inbox, None, Err(e.value, false))
    else
      match ReadFrame(inbox)
      case Short => InitOut(true, [f], inbox, None, Err(StreamEnded, false))
      case TooLarge => InitOut(true, [f], inbox[5..], None, Err(DecodeError, false))
      case Got(g, rest) =>
        var r := InitResumed(c, cfg, coins, p, hello, g);
        if r.Err? then InitFail([f], rest, None, r, w) else InitOut(true, [f], rest, None, r)
  }

  function InitResumed(c: Crypto, cfg: InitCfg, coins: InitCoins, p: ClientPsk, hello: Bytes, g: Frame): Result<Done>
  {
    if g.typ == FRAME_ALERT then
      match DecodeAlert(g.body)
      case None => Err(DecodeError, false)
      case Some(a) => Err(ErrorForAlert(a.code), false)
    else if g.typ != FRAME_KEM_REPLY || |g.body| != X_LEN then Err(DecodeError, true)
    else
      match c.dh(coins.xSk, g.body)
      case None => Err(AuthFailed, true)
      case Some(x) =>
        Ok(Done(DeriveResumed(c, H2Psk(c, Suite(cfg), hello, g.body), x, p.psk), p.peerId, Suite(cfg)))
  }

  /** The initiator: resume with an unexpired cached key, else the full exchange. */
  function InitRun(c: Crypto, cfg: InitCfg, coins: InitCoins, now: int, w: nat, inbox: Bytes): InitOut
  {
    if Suite(cfg) != SUITE_V1 then InitOut(false, [], inbox, None, Err(UnsupportedSuite, false))
    else if w == 0 then InitOut(false, [], inbox, None, Err(WriteFailed, false))
    else if cfg.resume.Some? && cfg.resume.value.until > now then
      InitResume(c, cfg, coins, cfg.resume.value, now, w, inbox)
    else InitFull(c, cfg, coins, now, w, inbox)
  }

  function InitBytes(o: InitOut): Bytes
  {
    (if o.magic then MAGIC else []) + Envelopes(o.frames)
  }

  // ---- responder ----

  datatype RespCfg = RespCfg(sk: Bytes, strict: bool, accepted: Bytes)

  datatype RespCoins = RespCoins(xSk: Bytes, kem: Bytes, sig: Bytes)

  /** The state a responder keeps between runs; either part may be switched off. */
  datatype RespSt = RespSt(cache: Option<Replay.Cache>, store: Option<PskStores.Store>)

  predicate AcceptsSuite(cfg: RespCfg, s: byte)
  {
    s == SUITE_V1 && (cfg.accepted == [] || s in cfg.accepted)
  }

  /** The replay gate, when there is a cache: timestamp first, then the key. */
  function Gate(cache: Option<Replay.Cache>, k: Replay.Key, ts: nat, now: int): (Option<Replay.Cache>, bool)
  {
    match cache
    case None => (None, true)
    case Some(s) =>
      if !Replay.InWindow(ts, now) then (cache, false)
      else var (t, seen) := Replay.SeenOrAddS(s, k, now); (Some(t), !seen)
  }

  /** Everything checked about a HELLO before KEM_INIT is read, and the cache after it. */
  function CheckHello(c: Crypto, cfg: RespCfg, cache: Option<Replay.Cache>, body: Bytes, now: int)
    : (Result<Hello>, Option<Replay.Cache>)
  {
    match DecodeHello(body)
    case None => (Err(DecodeError, true), cache)
    case Some(h) =>
      if !AcceptsSuite(cfg, h.suite) then (Err(UnsupportedSuite, true), cache)
      else if cfg.strict && h.pqMode == MODE_CLASSICAL then (Err(DowngradeRefused, true), cache)
      else if cfg.strict && (exists i :: 0 <= i < |h.schemes| && h.schemes[i] != SUITE_V1) then
        (Err(DowngradeRefused, true), cache)
      else
        var (after, pass) := Gate(cache, Replay.Key(h.clientId, h.random), h.timestamp, now);
        if !pass then (Err(ReplayDetected, true), after)
        else if c.hash(h.staticPk) != h.clientId then (Err(AuthFailed, true), after)
        else if !c.sigPkOk(h.staticPk) then (Err(DecodeError, true), after)
        else (Ok(h), after)
  }

  /** The responder's half of the key exchange: the KEM_REPLY body and what the run will sign. */
  function RespView(c: Crypto, cfg: RespCfg, coins: RespCoins, h: Hello, hello: Bytes, init: Bytes): Result<View>
  {
    match DecodeKemInit(init)
    case None => Err(DecodeError, true)
    case Some(k) =>
      match c.dh(coins.xSk, k.x)
      case None => Err(AuthFailed, true)
      case Some(x) =>
        if !c.kemPkOk(k.kem) then Err(DecodeError, true)
        else
          match c.encap(k.kem, coins.kem)
          case None => Err(AuthFailed, true)
          case Some(p) =>
            if |p.0| != KEM_CT then Err(AuthFailed, true)
            else
              match EncodeKemReply(KemReply(c.dhPub(coins.xSk), p.0, c.sigPub(cfg.sk)))
              case None => Err(DecodeError, true)
              case Some(reply) =>
                Ok(View(Script(h.suite, hello, init, reply, h.staticPk, c.sigPub(cfg.sk), h.schemes), x, p.1))
  }

  datatype RespOut = RespOut(frames: seq<Frame>, rest: Bytes, st: RespSt, view: Option<View>, result: Result<Done>)

  function RespFail<T>(frames: seq<Frame>, rest: Bytes, st: RespSt, view: Option<View>, r: Result<T>, w: nat): RespOut
    requires r.Err?
  {
    RespOut(frames + (if r.alert && |frames| < w then [AlertFrame(r.error)] else []), rest, st, view,
            Err(r.error, r.alert))
  }

  function RespFull(c: Crypto, cfg: RespCfg, coins: RespCoins, st: RespSt, now: int, w: nat, hello: Bytes,
                    inbox: Bytes): RespOut
  {
    var (h, cache) := CheckHello(c, cfg, st.cache, hello, now);
    var st := st.(cache := cache);
    if h.Err? then RespFail([], inbox, st, None, h, w)
    else
      var (init, rest) := Expect(inbox, FRAME_KEM_INIT);
      if init.Err? then RespFail([], rest, st, None, init, w)
      else
        var v := RespView(c, cfg, coins, h.value, hello, init.value);
        if v.Err? then RespFail([], rest, st, None, v, w)
        else RespAuth(c, cfg, coins, st, now, w, v.value, rest)
  }

  function RespAuth(c: Crypto, cfg: RespCfg, coins: RespCoins, st: RespSt, now: int, w: nat, v: View,
                    inbox: Bytes): RespOut
  {
    var f1 := Frame(FRAME_KEM_REPLY, v.script.reply);
    var e1 := WriteOne(f1, 0, w);
    if e1.Some? then RespOut([], inbox, st, None, Err(e1.value, false))
    else
      var mine := MakeAuth(c, cfg.sk, v, ROLE_R, coins.sig);
      if mine.Err? then RespFail([f1], inbox, st, Some(v), mine, w)
      else
        var f2 := Frame(FRAME_AUTH, mine.value);
        var e2 := WriteOne(f2, 1, w);
        if e2.Some? then RespOut([f1], inbox, st, Some(v), Err(e2.value, false))
        else RespFinish(c, st, now, w, v, [f1, f2], inbox)
  }

  function RespFinish(c: Crypto, st: RespSt, now: int, w: nat, v: View, sent: seq<Frame>, inbox: Bytes): RespOut
  {
    var (auth, rest) := Expect(inbox, FRAME_AUTH);
    if auth.Err? then RespFail(sent, rest, st, Some(v), auth, w)
    else
      var ok := CheckAuth(c, v, ROLE_I, auth.value);
      if ok.Err? then RespFail(sent, rest, st, Some(v), ok, w)
      else
        var id := c.hash(v.script.pkI);
        var keys := KeysOf(c, v);
        RespOut(sent, rest, Issued(c, st, keys.psk, id, now), Some(v), Ok(Done(keys, id, v.script.suite)))
  }

  function Issued(c: Crypto, st: RespSt, psk: Bytes, id: Bytes, now: int): RespSt
  {
    if st.store.None? then st else st.(store := Some(PskStores.IssueS(c, st.store.value, psk, id, now)))
  }

  /** A HELLO_PSK up to the redeemed key, and the state after it. */
  function CheckHelloPsk(c: Crypto, cfg: RespCfg, st: RespSt, body: Bytes, now: int)
    : (Result<(HelloPsk, PskStores.Entry)>, RespSt)
  {
    match DecodeHelloPsk(body)
    case None => (Err(DecodeError, true), st)
    case Some(h) =>
      if !AcceptsSuite(cfg, h.suite) then (Err(UnsupportedSuite, true), st)
      else if cfg.strict && h.pqMode == MODE_CLASSICAL then (Err(DowngradeRefused, true), st)
      else
        var (cache, pass) := Gate(st.cache, Replay.Key(c.hash(h.pskId), h.random), h.timestamp, now);
        var st := st.(cache := cache);
        if !pass then (Err(ReplayDetected, true), st)
        else if st.store.None? then (Err(PskUnknown, true), st)
        else
          var (store, hit) := PskStores.RedeemS(st.store.value, h.pskId, now);
          var st := st.(store := Some(store));
          if hit.None? then (Err(PskUnknown, true), st) else (Ok((h, hit.value)), st)
  }

  function RespResume(c: Crypto, cfg: RespCfg, coins: RespCoins, st: RespSt, now: int, w: nat, hello: Bytes,
                      inbox: Bytes): RespOut
  {
    var (r, st) := CheckHelloPsk(c, cfg, st, hello, now);
    if r.Err? then RespFail([], inbox, st, None, r, w)
    else
      var (h, e) := r.value;
      match c.dh(coins.xSk, h.x)
      case None => RespFail([], inbox, st, None, Result<()>.Err(AuthFailed, true), w)
      case Some(x) =>
        var eph := c.dhPub(coins.xSk);
        var f := Frame(FRAME_KEM_REPLY, eph);
        var err := WriteOne(f, 0, w);
        if err.Some? then RespOut([], inbox, st, None, Err(err.value, false))
        else
          var keys := DeriveResumed(c, H2Psk(c, h.suite, hello, eph), x, e.psk);
          RespOut([f], inbox, Issued(c, st, keys.psk, e.clientId, now), None, Ok(Done(keys, e.clientId, h.suite)))
  }

  function RespRun(c: Crypto, cfg: RespCfg, coins: RespCoins, st: RespSt, now: int, w: nat, inbox: Bytes): RespOut
  {
    if cfg.strict && st.cache.None? then RespOut([], inbox, st, None, Err(Misconfigured, false))
    else if |inbox| < 4 then RespOut([], inbox, st, None, Err(StreamEnded, false))
    else if inbox[..4] != MAGIC then RespOut([], inbox[4..], st, None, Err(MagicMismatch, false))
    else
      match ReadFrame(inbox[4..])
      case Short => RespOut([], inbox[4..], st, None, Err(StreamEnded, false))
      case TooLarge => RespOut([], inbox[9..], st, None, Err(DecodeError, false))
      case Got(f, rest) =>
        if f.typ == FRAME_HELLO then RespFull(c, cfg, coins, st, now, w, f.body, rest)
        else if f.typ == FRAME_HELLO_PSK then RespResume(c, cfg, coins, st, now, w, f.body, rest)
        else if f.typ == FRAME_ALERT then
          match DecodeAlert(f.body)
          case None => RespOut([], rest, st, None, Err(DecodeError, false))
          case Some(a) => RespOut([], rest, st, None, Err(ErrorForAlert(a.code), false))
        else RespFail([], rest, st, None, Result<()>.Err(DecodeError, true), w)
  }
}
