/** One direction of an established session, on values: what Send, Rekey and Recv do. */
module Records {
  import opened ByteStrings
  import opened Frames
  import opened Primitives

  const FRAME_CAP: nat := 0x8000_0000
  const BYTES_CAP: nat := 100 * 0x4000_0000
  const TIME_CAP: int := 3600 * 1_000_000_000
  const TAG: nat := 16
  const REASON_EXPLICIT: byte := 0x04

  // ---- sending ----

  datatype SendSt = SendSt(key: Bytes, salt: Bytes, counter: nat, epoch: byte, sent: nat, base: int, dir: byte)

  /** One use of the AEAD: the payload and everything it is bound to. */
  datatype Record = Record(key: Bytes, nonce: Bytes, aad: Bytes, epoch: byte, counter: nat, payload: Bytes)

  function Nonce(salt: Bytes, counter: nat): Bytes
  {
    salt + BE(counter % TWO64, 8)
  }

  function Aad(outerLen: nat, dir: byte, epoch: byte): Bytes
  {
    [FRAME_DATA] + BE(outerLen % TWO32, 4) + [dir, epoch]
  }

  function Seal(c: Crypto, r: Record): Bytes
  {
    c.seal(r.key, r.nonce, r.aad, r.payload)
  }

  /** The fate of the writes one call may make: the REKEY frame's and the DATA frame's. */
  datatype Io = Io(rekeyOk: bool, dataOk: bool)

  /** The result of a sending call: new state, frames put on the wire, AEAD use, error. */
  datatype SendOut = SendOut(st: SendSt, frames: seq<Frame>, used: Option<Record>, err: Option<Error>)

  predicate NeedsRekey(st: SendSt, add: nat, now: int)
  {
    st.counter + 1 >= FRAME_CAP || st.sent + add >= BYTES_CAP || now - st.base >= TIME_CAP
  }

  function RekeyS(c: Crypto, st: SendSt, now: int, ok: bool): SendOut
  {
    if st.epoch == 255 then SendOut(st, [], None, Some(EpochExhausted))
    else if !ok then SendOut(st, [], None, Some(WriteFailed))
    else
      var (k, s) := Ratchet(c, st.key, st.epoch);
      SendOut(SendSt(k, s, 0, st.epoch + 1, 0, now, st.dir), [Frame(FRAME_REKEY, [REASON_EXPLICIT])], None, None)
  }

  /** The length field of the DATA frame, computed in 32 bits. */
  function OuterLen(payload: Bytes): nat
  {
    (12 + (|payload| + TAG) % TWO32) % TWO32
  }

  function RecordOf(st: SendSt, payload: Bytes): Record
  {
    Record(st.key, Nonce(st.salt, st.counter), Aad(OuterLen(payload), st.dir, st.epoch),
           st.epoch, st.counter, payload)
  }

  /** The sealing half of Send, after any automatic rekey. */
  function EmitS(c: Crypto, st: SendSt, payload: Bytes, ok: bool): SendOut
  {
    if OuterLen(payload) > MAX_BODY then SendOut(st, [], None, Some(DecodeError))
    else
      var r := RecordOf(st, payload);
      var ct := Seal(c, r);
      if |ct| != (|payload| + TAG) % TWO32 then SendOut(st, [], Some(r), Some(SealMismatch))
      else
        var f := Frame(FRAME_DATA, EncodeData(Data(st.counter, ct)));
        if !Sendable(f) then SendOut(st, [], Some(r), Some(DecodeError))
        else if !ok then SendOut(st, [], Some(r), Some(WriteFailed))
        else SendOut(st.(counter := st.counter + 1, sent := st.sent + |payload|), [f], Some(r), None)
  }

  function SendS(c: Crypto, st: SendSt, payload: Bytes, now: int, io: Io): SendOut
  {
    if !NeedsRekey(st, |payload|, now) then EmitS(c, st, payload, io.dataOk)
    else
      var k := RekeyS(c, st, now, io.rekeyOk);
      if k.err.Some? then k
      else
        var e := EmitS(c, k.st, payload, io.dataOk);
        e.(frames := k.frames + e.frames)
  }

  // ---- receiving ----

  datatype RecvSt = RecvSt(key: Bytes, salt: Bytes, counter: nat, have: bool, epoch: byte, dir: byte)

  datatype Outcome = Delivered(record: Record) | Waiting | Failed(error: Error)

  /** The result of taking one frame: new state, ALERT code to answer with, outcome. */
  datatype RecvOut = RecvOut(st: RecvSt, alert: Option<byte>, outcome: Outcome)

  function Refuse(st: RecvSt, e: Error): RecvOut
  {
    RecvOut(st, Some(AlertForError(e)), Failed(e))
  }

  function DataS(c: Crypto, st: RecvSt, body: Bytes): RecvOut
  {
    match DecodeData(body)
    case None => Refuse(st, DecodeError)
    case Some(d) =>
      if st.have && d.counter <= st.counter then Refuse(st, NonceViolation)
      else if d.counter >= FRAME_CAP then Refuse(st, NonceViolation)
      else
        var nonce := Nonce(st.salt, d.counter);
        var aad := Aad(12 + |d.ct|, st.dir, st.epoch);
        match c.open(st.key, nonce, aad, d.ct)
        case None => Refuse(st, AuthFailed)
        case Some(p) =>
          RecvOut(st.(counter := d.counter, have := true), None,
                  Delivered(Record(st.key, nonce, aad, st.epoch, d.counter, p)))
  }

  function RatchetRecv(c: Crypto, st: RecvSt): RecvOut
  {
    if st.epoch == 255 then Refuse(st, EpochExhausted)
    else
      var (k, s) := Ratchet(c, st.key, st.epoch);
      RecvOut(RecvSt(k, s, 0, false, st.epoch + 1, st.dir), None, Waiting)
  }

  function AcceptS(c: Crypto, st: RecvSt, f: Frame): RecvOut
  {
    if f.typ == FRAME_DATA then DataS(c, st, f.body)
    else if f.typ == FRAME_REKEY then
      if |f.body| != 1 then Refuse(st, DecodeError) else RatchetRecv(c, st)
    else if f.typ == FRAME_ALERT then
      match DecodeAlert(f.body)
      case None => RecvOut(st, None, Failed(DecodeError))
      case Some(a) => RecvOut(st, None, Failed(ErrorForAlert(a.code)))
    else Refuse(st, DecodeError)
  }

  /** One call of Recv on what has arrived: REKEYs are absorbed until a payload, a failure or the end. */
  function RecvS(c: Crypto, st: RecvSt, stream: Bytes): (r: (RecvOut, Bytes))
    ensures r.0.outcome.Waiting? || |r.1| < |stream|
    decreases |stream|
  {
    match ReadFrame(stream)
    case Short => (RecvOut(st, None, Waiting), stream)
    case TooLarge => (RecvOut(st, None, Failed(DecodeError)), stream[5..])
    case Got(f, rest) =>
      var o := AcceptS(c, st, f);
      if o.outcome.Waiting? then RecvS(c, o.st, rest) else (o, rest)
  }
}

/** The session object: keys, counters and epochs of both directions over one connection. */
module Sessions {
  import opened ByteStrings
  import opened Frames
  import opened Primitives
  import opened Records

  /** The transport: bytes that have arrived, and bytes written so far. */
  class Conn {
    var inbox: Bytes
    var outbox: Bytes

    constructor (arrived: Bytes)
      ensures inbox == arrived && outbox == []
    {
      inbox, outbox := arrived, [];
    }

    /** One Write call per frame; `ok` says whether the transport took it. */
    method Write(t: byte, body: Bytes, ok: bool) returns (e: Option<Error>)
      modifies this`outbox
      ensures e == (if !Sendable(Frame(t, body)) then Some(DecodeError) else if !ok then Some(WriteFailed) else None)
      ensures outbox == old(outbox) + (if e.None? then Envelope(Frame(t, body)) else [])
    {
      if |body| > MAX_BODY {
        return Some(DecodeError);
      }
      if !ok {
        return Some(WriteFailed);
      }
      outbox := outbox + [t] + BE(|body| % TWO32, 4) + body;
      return None;
    }

    method Read() returns (r: ReadResult)
      modifies this`inbox
      ensures r == ReadFrame(old(inbox))
      ensures inbox == (match r case Got(_, rest) => rest case TooLarge => old(inbox[5..]) case Short => old(inbox))
    {
      r := ReadFrame(inbox);
      match r
      case Got(_, rest) => inbox := rest;
      case TooLarge => inbox := inbox[5..];
      case Short =>
    }
  }

  class Session {
    const c: Crypto
    const conn: Conn
    const role: byte
    const peerId: Bytes
    const psk: Option<Bytes>

    var sendKey: Bytes
    var sendSalt: Bytes
    var sendCounter: nat
    var sendEpoch: byte
    var sendBytes: nat
    var sendBase: int
    const sendDir: byte

    var recvKey: Bytes
    var recvSalt: Bytes
    var recvCounter: nat
    var recvHave: bool
    var recvEpoch: byte
    const recvDir: byte

    var closed: bool

    ghost function Sender(): SendSt
      reads this
    {
      SendSt(sendKey, sendSalt, sendCounter, sendEpoch, sendBytes, sendBase, sendDir)
    }

    ghost function Receiver(): RecvSt
      reads this
    {
      RecvSt(recvKey, recvSalt, recvCounter, recvHave, recvEpoch, recvDir)
    }

    /** The two ends take the same keys with the directions swapped. */
    constructor (c: Crypto, conn: Conn, role: byte, peerId: Bytes, keys: SessionKeys, now: int)
      requires role == ROLE_I || role == ROLE_R
      ensures this.c == c && this.conn == conn && this.role == role && this.peerId == peerId && !closed
      ensures Sender() == FirstSend(role, keys, now) && Receiver() == FirstRecv(role, keys)
      ensures psk == (if role == ROLE_I then Some(keys.psk) else None)
    {
      this.c, this.conn, this.role, this.peerId := c, conn, role, peerId;
      sendCounter, sendEpoch, sendBytes, sendBase := 0, 0, 0, now;
      recvCounter, recvHave, recvEpoch := 0, false, 0;
      closed := false;
      if role == ROLE_I {
        sendKey, sendSalt, sendDir := keys.kI2R, keys.saltI2R, ROLE_I;
        recvKey, recvSalt, recvDir := keys.kR2I, keys.saltR2I, ROLE_R;
        psk := Some(keys.psk);
      } else {
        sendKey, sendSalt, sendDir := keys.kR2I, keys.saltR2I, ROLE_R;
        recvKey, recvSalt, recvDir := keys.kI2R, keys.saltI2R, ROLE_I;
        psk := None;
      }
    }

    method RekeyLocal(now: int, ok: bool) returns (e: Option<Error>)
      modifies this`sendKey, this`sendSalt, this`sendCounter, this`sendEpoch, this`sendBytes, this`sendBase,
               conn`outbox
      ensures Sender() == RekeyS(c, old(Sender()), now, ok).st
      ensures conn.outbox == old(conn.outbox) + Envelopes(RekeyS(c, old(Sender()), now, ok).frames)
      ensures e == RekeyS(c, old(Sender()), now, ok).err
    {
      if sendEpoch == 0xFF {
        return Some(EpochExhausted);
      }
      e := conn.Write(FRAME_REKEY, [REASON_EXPLICIT], ok);
      if e.Some? {
        return;
      }
      var (k, s) := Ratchet(c, sendKey, sendEpoch);
      sendKey, sendSalt := k, s;
      sendEpoch := sendEpoch + 1;
      sendCounter := 0;
      sendBytes := 0;
      sendBase := now;
      OneEnvelope(Frame(FRAME_REKEY, [REASON_EXPLICIT]));
    }

    method Rekey(now: int, ok: bool) returns (e: Option<Error>)
      modifies this`sendKey, this`sendSalt, this`sendCounter, this`sendEpoch, this`sendBytes, this`sendBase,
               conn`outbox
      ensures closed ==> e == Some(SessionClosed) && Sender() == old(Sender()) && conn.outbox == old(conn.outbox)
      ensures !closed ==>
        var r := RekeyS(c, old(Sender()), now, ok);
        Sender() == r.st && conn.outbox == old(conn.outbox) + Envelopes(r.frames) && e == r.err
    {
      if closed {
        return Some(SessionClosed);
      }
      e := RekeyLocal(now, ok);
    }

    /** Seal and write; the counter moves only after a successful write. */
    method Emit(payload: Bytes, ok: bool) returns (e: Option<Error>)
      modifies this`sendCounter, this`sendBytes, conn`outbox
      ensures Sender() == EmitS(c, old(Sender()), payload, ok).st
      ensures conn.outbox == old(conn.outbox) + Envelopes(EmitS(c, old(Sender()), payload, ok).frames)
      ensures e == EmitS(c, old(Sender()), payload, ok).err
    {
      hide EncodeData, BE, Envelope;
      var ctLen := (|payload| + TAG) % TWO32;
      var outerLen := (12 + ctLen) % TWO32;
      if outerLen > MAX_BODY {
        return Some(DecodeError);
      }
      var nonce := Nonce(sendSalt, sendCounter);
      var aad := Aad(outerLen, sendDir, sendEpoch);
      var ct := c.seal(sendKey, nonce, aad, payload);
      if |ct| != ctLen {
        return Some(SealMismatch);
      }
      var body := EncodeData(Data(sendCounter, ct));
      e := conn.Write(FRAME_DATA, body, ok);
      if e.Some? {
        return;
      }
      sendCounter := sendCounter + 1;
      sendBytes := sendBytes + |payload|;
      OneEnvelope(Frame(FRAME_DATA, body));
    }

    method Send(payload: Bytes, now: int, io: Io) returns (e: Option<Error>)
      modifies this`sendKey, this`sendSalt, this`sendCounter, this`sendEpoch, this`sendBytes, this`sendBase,
               conn`outbox
      ensures closed ==> e == Some(SessionClosed) && Sender() == old(Sender()) && conn.outbox == old(conn.outbox)
      ensures !closed ==>
        var r := SendS(c, old(Sender()), payload, now, io);
        Sender() == r.st && conn.outbox == old(conn.outbox) + Envelopes(r.frames) && e == r.err
    {
      hide EmitS, RekeyS, Envelopes;
      if closed {
        return Some(SessionClosed);
      }
      if NeedsRekey(SendSt(sendKey, sendSalt, sendCounter, sendEpoch, sendBytes, sendBase, sendDir), |payload|, now) {
        ghost var before := Sender();
        e := RekeyLocal(now, io.rekeyOk);
        if e.Some? {
          return;
        }
        ghost var mid := Sender();
        e := Emit(payload, io.dataOk);
        EnvelopesConcat(RekeyS(c, before, now, io.rekeyOk).frames, EmitS(c, mid, payload, io.dataOk).frames);
      } else {
        e := Emit(payload, io.dataOk);
      }
    }

    method HandleData(body: Bytes) returns (alert: Option<byte>, r: Outcome)
      modifies this`recvCounter, this`recvHave
      ensures RecvOut(Receiver(), alert, r) == DataS(c, old(Receiver()), body)
    {
      var d := DecodeData(body);
      if d.None? {
        return Some(AlertForError(DecodeError)), Failed(DecodeError);
      }
      if recvHave && d.value.counter <= recvCounter {
        return Some(AlertForError(NonceViolation)), Failed(NonceViolation);
      }
      if d.value.counter >= FRAME_CAP {
        return Some(AlertForError(NonceViolation)), Failed(NonceViolation);
      }
      var nonce := Nonce(recvSalt, d.value.counter);
      var aad := Aad(12 + |d.value.ct|, recvDir, recvEpoch);
      var plain := c.open(recvKey, nonce, aad, d.value.ct);
      if plain.None? {
        return Some(AlertForError(AuthFailed)), Failed(AuthFailed);
      }
      recvCounter := d.value.counter;
      recvHave := true;
      return None, Delivered(Record(recvKey, nonce, aad, recvEpoch, recvCounter, plain.value));
    }

    method RekeyRemote() returns (e: Option<Error>)
      modifies this`recvKey, this`recvSalt, this`recvCounter, this`recvHave, this`recvEpoch
      ensures Receiver() == RatchetRecv(c, old(Receiver())).st
      ensures e == (if old(recvEpoch) == 255 then Some(EpochExhausted) else None)
    {
      if recvEpoch == 0xFF {
        return Some(EpochExhausted);
      }
      var (k, s) := Ratchet(c, recvKey, recvEpoch);
      recvKey, recvSalt := k, s;
      recvEpoch := recvEpoch + 1;
      recvCounter := 0;
      recvHave := false;
      return None;
    }

    /** Take one frame: the new receive state, the ALERT code to answer with and the outcome. */
    method Accept(f: Frame) returns (alert: Option<byte>, r: Outcome)
      modifies this`recvKey, this`recvSalt, this`recvCounter, this`recvHave, this`recvEpoch
      ensures RecvOut(Receiver(), alert, r) == AcceptS(c, old(Receiver()), f)
    {
      if f.typ == FRAME_DATA {
        alert, r := HandleData(f.body);
      } else if f.typ == FRAME_REKEY {
        if |f.body| != 1 {
          return Some(AlertForError(DecodeError)), Failed(DecodeError);
        }
        var e := RekeyRemote();
        if e.Some? {
          return Some(AlertForError(e.value)), Failed(e.value);
        }
        return None, Waiting;
      } else if f.typ == FRAME_ALERT {
        var a := DecodeAlert(f.body);
        return None, Failed(if a.None? then DecodeError else ErrorForAlert(a.value.code));
      } else {
        return Some(AlertForError(DecodeError)), Failed(DecodeError);
      }
    }

    /** The receive loop; an ALERT the transport refuses is dropped silently. */
    method Recv(alertOk: bool) returns (r: Outcome)
      modifies this`recvKey, this`recvSalt, this`recvCounter, this`recvHave, this`recvEpoch, conn
      ensures closed ==> r == Failed(SessionClosed) && Receiver() == old(Receiver()) && unchanged(conn)
      ensures !closed ==>
        var (o, rest) := RecvS(c, old(Receiver()), old(conn.inbox));
        && r == o.outcome && Receiver() == o.st && conn.inbox == rest
        && conn.outbox == old(conn.outbox) +
             if o.alert.Some? && alertOk
             then Envelope(Frame(FRAME_ALERT, EncodeAlert(Alert(o.alert.value, [])))) else []
    {
      hide AcceptS, ReadFrame, Envelope, EncodeAlert;
      if closed {
        return Failed(SessionClosed);
      }
      ghost var goal := RecvS(c, Receiver(), conn.inbox);
      while true
        invariant goal == RecvS(c, Receiver(), conn.inbox)
        invariant conn.outbox == old(conn.outbox)
        decreases |conn.inbox|
      {
        var f := conn.Read();
        match f {
          case Short => return Waiting;
          case TooLarge => return Failed(DecodeError);
          case Got(frame, rest) =>
            var alert;
            alert, r := Accept(frame);
            if !r.Waiting? {
              if alert.Some? {
                AlertFits(alert.value);
                var _ := conn.Write(FRAME_ALERT, EncodeAlert(Alert(alert.value, [])), alertOk);
              }
              return;
            }
        }
      }
    }

    /** Close forgets the keys; every later call fails. */
    method Close()
      modifies this`closed, this`sendKey, this`sendSalt, this`recvKey, this`recvSalt
      ensures closed
      ensures !old(closed) ==>
        && sendKey == Zeros(|old(sendKey)|) && sendSalt == Zeros(|old(sendSalt)|)
        && recvKey == Zeros(|old(recvKey)|) && recvSalt == Zeros(|old(recvSalt)|)
      ensures old(closed) ==> Sender() == old(Sender()) && Receiver() == old(Receiver())
    {
      if closed {
        return;
      }
      closed := true;
      sendKey, sendSalt := Zeros(|sendKey|), Zeros(|sendSalt|);
      recvKey, recvSalt := Zeros(|recvKey|), Zeros(|recvSalt|);
    }
  }

  /** newSession: a role byte other than the two is an error. */
  method NewSession(c: Crypto, conn: Conn, role: byte, peerId: Bytes, keys: SessionKeys, now: int)
    returns (s: Session?)
    ensures s == null <==> role !in {ROLE_I, ROLE_R}
    ensures s != null ==>
      && fresh(s) && s.c == c && s.conn == conn && s.role == role && s.peerId == peerId && !s.closed
      && s.Sender() == FirstSend(role, keys, now) && s.Receiver() == FirstRecv(role, keys)
      && s.psk == (if role == ROLE_I then Some(keys.psk) else None)
  {
    if role != ROLE_I && role != ROLE_R {
      return null;
    }
    s := new Session(c, conn, role, peerId, keys, now);
  }

  /** What one end sends, the other is set up to receive: same key, salt, epoch and direction byte. */
  lemma {:induction false} RolesMirror(keys: SessionKeys, now: int)
    ensures var (i, r) := (FirstSend(ROLE_I, keys, now), FirstRecv(ROLE_R, keys));
      i.key == r.key && i.salt == r.salt && i.dir == r.dir && i.epoch == r.epoch
    ensures var (r, i) := (FirstSend(ROLE_R, keys, now), FirstRecv(ROLE_I, keys));
      r.key == i.key && r.salt == i.salt && r.dir == i.dir && r.epoch == i.epoch
  {
  }

  function FirstSend(role: byte, keys: SessionKeys, now: int): SendSt
  {
    if role == ROLE_I then SendSt(keys.kI2R, keys.saltI2R, 0, 0, 0, now, ROLE_I)
    else SendSt(keys.kR2I, keys.saltR2I, 0, 0, 0, now, ROLE_R)
  }

  function FirstRecv(role: byte, keys: SessionKeys): RecvSt
  {
    if role == ROLE_I then RecvSt(keys.kR2I, keys.saltR2I, 0, false, 0, ROLE_R)
    else RecvSt(keys.kI2R, keys.saltI2R, 0, false, 0, ROLE_I)
  }

  lemma {:induction false} OneEnvelope(f: Frame)
    ensures Envelopes([f]) == Envelope(f)
  {
    hide Envelope;
    assert [f][1..] == [];
  }

  lemma {:induction false} AlertFits(code: byte)
    ensures Sendable(Frame(FRAME_ALERT, EncodeAlert(Alert(code, []))))
  {
  }
}
