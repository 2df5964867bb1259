/** Every run of Send and Rekey on one direction, and the AEAD uses it makes. */
module SendRuns {
  import opened ByteStrings
  import opened Frames
  import opened Primitives
  import opened Records

  datatype Op = Send(payload: Bytes, now: int, io: Io) | Rekey(now: int, ok: bool)

  function Do(c: Crypto, st: SendSt, op: Op): SendOut
  {
    match op
    case Send(p, now, io) => SendS(c, st, p, now, io)
    case Rekey(now, ok) => RekeyS(c, st, now, ok)
  }

  /** One AEAD use: by which operation, of what, and whether that Send succeeded. */
  datatype Use = Use(op: nat, record: Record, ok: bool)

  function UseOf(o: SendOut, op: nat): seq<Use>
  {
    if o.used.Some? then [Use(op, o.used.value, o.err.None?)] else []
  }

  function Uses(c: Crypto, st: SendSt, ops: seq<Op>, first: nat): seq<Use>
    decreases |ops|
  {
    if ops == [] then []
    else var o := Do(c, st, ops[0]); UseOf(o, first) + Uses(c, o.st, ops[1..], first + 1)
  }

  /** How many Sends of the run succeed. */
  function Succeeded(c: Crypto, st: SendSt, ops: seq<Op>): nat
    decreases |ops|
  {
    if ops == [] then 0
    else
      var o := Do(c, st, ops[0]);
      (if ops[0].Send? && o.err.None? then 1 else 0) + Succeeded(c, o.st, ops[1..])
  }

  /** Epoch and counter as one number: counters stay below the cap. */
  function At(epoch: nat, counter: nat): nat
  {
    epoch * 0x8000_0000 + counter
  }

  function Pos(r: Record): nat
  {
    At(r.epoch, r.counter)
  }

  function SaltOf(r: Record): Bytes
  {
    if |r.nonce| < 4 then r.nonce else r.nonce[..4]
  }

  predicate Running(st: SendSt)
  {
    st.counter < FRAME_CAP && |st.salt| == 4
  }

  /** A record's nonce and associated data carry its counter, direction and epoch. */
  predicate Bound(r: Record, dir: byte)
  {
    && r.counter < FRAME_CAP - 1
    && |r.nonce| == 12 && r.nonce[4..] == BE(r.counter, 8)
    && |r.aad| == 7 && r.aad[5] == dir && r.aad[6] == r.epoch
  }

  lemma {:induction false} RecordBound(st: SendSt, payload: Bytes)
    requires st.counter < FRAME_CAP - 1 && |st.salt| == 4
    ensures Bound(RecordOf(st, payload), st.dir) && SaltOf(RecordOf(st, payload)) == st.salt
  {
    hide BE, OuterLen;
    PowFacts();
    var n := Nonce(st.salt, st.counter);
    assert n[4..] == BE(st.counter, 8) && n[..4] == st.salt;
  }

  /** What one operation does to the position, and how its AEAD use sits between old and new state. */
  lemma {:induction false} StepFacts(c: Crypto, st: SendSt, op: Op)
    requires Running(st) && OutputLengths(c)
    ensures var o := Do(c, st, op);
      && Running(o.st) && o.st.dir == st.dir && st.epoch <= o.st.epoch
      && (st.epoch == o.st.epoch ==> o.st.key == st.key && o.st.salt == st.salt && st.counter <= o.st.counter)
      && (o.used.Some? ==>
            var r := o.used.value;
            && op.Send? && r.payload == op.payload && Bound(r, st.dir)
            && r.epoch == o.st.epoch && r.key == o.st.key && SaltOf(r) == o.st.salt
            && o.st.counter == r.counter + (if o.err.None? then 1 else 0)
            && (st.epoch == r.epoch ==> r.counter == st.counter))
      && (op.Send? && o.err.None? ==> o.used.Some?)
  {
    hide EmitS, Bound;
    match op
    case Rekey(_, _) =>
    case Send(p, now, io) =>
      var m := if NeedsRekey(st, |p|, now) then RekeyS(c, st, now, io.rekeyOk).st else st;
      if m.counter < FRAME_CAP - 1 {
        EmitFacts(c, m, p, io.dataOk);
      }
  }

  lemma {:induction false} EmitFacts(c: Crypto, st: SendSt, payload: Bytes, ok: bool)
    requires st.counter < FRAME_CAP - 1 && |st.salt| == 4
    ensures var o := EmitS(c, st, payload, ok);
      && o.st == st.(counter := o.st.counter, sent := o.st.sent)
      && o.st.counter == st.counter + (if o.err.None? then 1 else 0)
      && (o.err.None? ==> o.used.Some?)
      && (o.used.Some? ==>
            var r := o.used.value;
            && Bound(r, st.dir) && SaltOf(r) == st.salt && r.key == st.key
            && r.epoch == st.epoch && r.counter == st.counter && r.payload == payload)
  {
    hide Seal, OuterLen, Nonce, Aad, Bound, SaltOf, EncodeData;
    RecordBound(st, payload);
  }

  /** Facts about each use of a run, and about its place after the starting state. */
  predicate Placed(st: SendSt, ops: seq<Op>, first: nat, u: Use)
  {
    && first <= u.op < first + |ops|
    && ops[u.op - first].Send? && ops[u.op - first].payload == u.record.payload
    && Bound(u.record, st.dir)
    && At(st.epoch, st.counter) <= Pos(u.record)
    && st.epoch <= u.record.epoch
    && (u.record.epoch == st.epoch ==> u.record.key == st.key && SaltOf(u.record) == st.salt)
  }

  lemma {:induction false} UsesPlaced(c: Crypto, st: SendSt, ops: seq<Op>, first: nat)
    requires Running(st) && OutputLengths(c)
    ensures forall u :: u in Uses(c, st, ops, first) ==> Placed(st, ops, first, u)
    decreases |ops|
  {
    hide OutputLengths, Do, Bound;
    if ops != [] {
      StepFacts(c, st, ops[0]);
      var o := Do(c, st, ops[0]);
      UsesPlaced(c, o.st, ops[1..], first + 1);
      forall u | u in Uses(c, o.st, ops[1..], first + 1)
        ensures Placed(st, ops, first, u)
      {
        assert Placed(o.st, ops[1..], first + 1, u);
      }
    }
  }

  /** Later uses never step back, and share key and salt with earlier ones of their epoch. */
  predicate Follows(u: Use, v: Use)
  {
    && u.op < v.op
    && (if u.ok then Pos(u.record) < Pos(v.record) else Pos(u.record) <= Pos(v.record))
    && u.record.epoch <= v.record.epoch
    && (u.record.epoch == v.record.epoch ==>
          u.record.key == v.record.key && SaltOf(u.record) == SaltOf(v.record))
  }

  lemma {:induction false} HeadFollowed(st: SendSt, ops: seq<Op>, u: Use, v: Use)
    requires Placed(st, ops, u.op + 1, v)
    requires u.record.epoch == st.epoch && u.record.key == st.key && SaltOf(u.record) == st.salt
    requires st.counter == u.record.counter + (if u.ok then 1 else 0)
    ensures Follows(u, v)
  {
    hide Bound, SaltOf;
  }

  predicate Ordered(us: seq<Use>)
  {
    forall i, j :: 0 <= i < j < |us| ==> Follows(us[i], us[j])
  }

  lemma {:induction false} OrderedCons(u: Use, us: seq<Use>)
    requires Ordered(us) && forall v :: v in us ==> Follows(u, v)
    ensures Ordered([u] + us)
  {
    hide Follows;
    var all := [u] + us;
    forall i, j | 0 <= i < j < |all|
      ensures Follows(all[i], all[j])
    {
      assert all[j] == us[j - 1];
      if i > 0 {
        assert all[i] == us[i - 1];
      }
    }
  }

  lemma {:induction false} UsesOrdered(c: Crypto, st: SendSt, ops: seq<Op>, first: nat)
    requires Running(st) && OutputLengths(c)
    ensures Ordered(Uses(c, st, ops, first))
    decreases |ops|
  {
    hide OutputLengths, Do, Bound, Follows, SaltOf, Placed;
    if ops != [] {
      StepFacts(c, st, ops[0]);
      var o := Do(c, st, ops[0]);
      var rest := Uses(c, o.st, ops[1..], first + 1);
      UsesPlaced(c, o.st, ops[1..], first + 1);
      UsesOrdered(c, o.st, ops[1..], first + 1);
      if o.used.Some? {
        var u := Use(first, o.used.value, o.err.None?);
        forall v | v in rest
          ensures Follows(u, v)
        {
          HeadFollowed(o.st, ops[1..], u, v);
        }
        OrderedCons(u, rest);
      } else {
        assert Uses(c, st, ops, first) == rest;
      }
    }
  }

  /** A failed use that is followed in its epoch is followed at its own position. */
  lemma {:induction false} FailureRepeats(c: Crypto, st: SendSt, ops: seq<Op>, first: nat, i: nat)
    requires Running(st) && OutputLengths(c)
    requires i + 1 < |Uses(c, st, ops, first)|
    ensures var us := Uses(c, st, ops, first);
      !us[i].ok && us[i + 1].record.epoch == us[i].record.epoch ==> Pos(us[i + 1].record) == Pos(us[i].record)
    decreases |ops|
  {
    hide OutputLengths, Do, Bound;
    StepFacts(c, st, ops[0]);
    var o := Do(c, st, ops[0]);
    var us, rest := Uses(c, st, ops, first), Uses(c, o.st, ops[1..], first + 1);
    if o.used.None? {
      FailureRepeats(c, o.st, ops[1..], first + 1, i);
    } else if i > 0 {
      FailureRepeats(c, o.st, ops[1..], first + 1, i - 1);
    } else {
      FirstUseAt(c, o.st, ops[1..], first + 1);
      assert us[0].record == o.used.value && us[1] == rest[0];
    }
  }

  /** The first use in the starting epoch is at the starting counter. */
  lemma {:induction false} FirstUseAt(c: Crypto, st: SendSt, ops: seq<Op>, first: nat)
    requires Running(st) && OutputLengths(c)
    requires Uses(c, st, ops, first) != []
    ensures var r := Uses(c, st, ops, first)[0].record; r.epoch == st.epoch ==> r.counter == st.counter
    decreases |ops|
  {
    hide OutputLengths, Bound, Do;
    StepFacts(c, st, ops[0]);
    var o := Do(c, st, ops[0]);
    if o.used.None? {
      FirstUseAt(c, o.st, ops[1..], first + 1);
      UsesPlaced(c, o.st, ops[1..], first + 1);
      assert Placed(o.st, ops[1..], first + 1, Uses(c, o.st, ops[1..], first + 1)[0]);
      IdleStep(c, st, ops[0]);
    }
  }

  /** An operation that uses no AEAD either stays where it is or opens a new epoch. */
  lemma {:induction false} IdleStep(c: Crypto, st: SendSt, op: Op)
    requires Do(c, st, op).used.None?
    ensures var o := Do(c, st, op); o.st.epoch == st.epoch ==> o.st == st
  {
    hide Seal, RecordOf, OuterLen;
  }

  // ---- bounds ----

  /** Every counter sealed is below 2^31 - 1, and at most 256 * (2^31 - 1) DATA frames are ever sent. */
  lemma {:induction false} SendsBounded(c: Crypto, st: SendSt, ops: seq<Op>)
    requires Running(st) && OutputLengths(c)
    ensures forall u :: u in Uses(c, st, ops, 0) ==> u.record.counter < FRAME_CAP - 1
    ensures Succeeded(c, st, ops) <= 256 * (FRAME_CAP - 1)
  {
    hide OutputLengths, Uses, Succeeded, Running;
    UsesPlaced(c, st, ops, 0);
    forall u | u in Uses(c, st, ops, 0)
      ensures u.record.counter < FRAME_CAP - 1
    {
      assert Placed(st, ops, 0, u);
    }
    BudgetSpent(c, st, ops);
    assert st.counter >= 0 && st.epoch >= 0;
  }

  /**
   The limits of an epoch hold at every AEAD use, after the automatic rekey if one was due: fewer than
   2^31 frames, under 100 GiB once the frame is out, and less than an hour since the epoch began.
   */
  lemma {:induction false} EpochLimits(c: Crypto, st: SendSt, payload: Bytes, now: int, io: Io)
    requires AeadCorrect(c) && st.sent < BYTES_CAP
    ensures var o := SendS(c, st, payload, now, io);
      && o.st.sent < BYTES_CAP
      && (o.used.Some? ==> o.used.value.counter + 1 < FRAME_CAP && now - o.st.base < TIME_CAP)
      && (o.err.None? ==> |payload| + TAG + 12 <= MAX_BODY)
  {
    hide RecordOf, Ratchet, Seal, EncodeData, AeadCorrect;
    PowFacts();
    var m := if NeedsRekey(st, |payload|, now) then RekeyS(c, st, now, io.rekeyOk).st else st;
    RecordKeeps(c, m, payload);
    DataLength(Data(m.counter, Seal(c, RecordOf(m, payload))));
  }

  lemma {:induction false} RecordKeeps(c: Crypto, st: SendSt, payload: Bytes)
    requires AeadCorrect(c)
    ensures RecordOf(st, payload).counter == st.counter && |Seal(c, RecordOf(st, payload))| == |payload| + TAG
  {
  }

  function Budget(st: SendSt): int
  {
    (255 - st.epoch as int) * 0x7FFF_FFFF + (0x7FFF_FFFF - st.counter)
  }

  lemma {:induction false} BudgetSpent(c: Crypto, st: SendSt, ops: seq<Op>)
    requires Running(st) && OutputLengths(c)
    ensures Succeeded(c, st, ops) <= Budget(st)
    decreases |ops|
  {
    hide OutputLengths, Bound, Do;
    if ops != [] {
      StepFacts(c, st, ops[0]);
      var o := Do(c, st, ops[0]);
      BudgetSpent(c, o.st, ops[1..]);
    }
  }

  // ---- exactly when a Send rekeys, and when it succeeds ----

  /** One more frame of this many bytes at this time: under 2^31 frames, under 100 GiB, within the hour. */
  predicate Within(st: SendSt, add: nat, now: int)
  {
    st.counter + 1 < 0x8000_0000 && st.sent + add < 107_374_182_400 && now - st.base < 3_600_000_000_000
  }

  /** A DATA frame of at most 16 MiB: counter, length and tag are 28 bytes. */
  predicate Fits(payload: Bytes)
  {
    |payload| + 28 <= 0x100_0000
  }

  /** The one frame of a sealing that goes through, and the state it leaves. */
  lemma {:induction false} EmitExactly(c: Crypto, st: SendSt, payload: Bytes, ok: bool)
    requires AeadCorrect(c) && st.counter < TWO64
    ensures var o := EmitS(c, st, payload, ok);
      && (o.err.None? <==> Fits(payload) && ok)
      && (o.err.Some? ==> o.st == st && o.frames == [])
      && (Fits(payload) && !ok ==> o.err == Some(WriteFailed))
      && (!Fits(payload) && |payload| + 28 < TWO32 ==> o.err == Some(DecodeError))
      && (o.err.None? ==>
            && o.st == st.(counter := st.counter + 1, sent := st.sent + |payload|)
            && |o.frames| == 1 && o.frames[0].typ == FRAME_DATA
            && DecodeData(o.frames[0].body) == Some(Data(st.counter, Seal(c, RecordOf(st, payload)))))
  {
    hide RecordOf, Seal, EncodeData, DecodeData, AeadCorrect;
    var d := Data(st.counter, Seal(c, RecordOf(st, payload)));
    RecordKeeps(c, st, payload);
    DataLength(d);
    if |d.ct| < TWO32 {
      DataRoundTrip(d);
    }
  }

  /** A Send stays in its epoch, with at most its DATA frame, if and only if the epoch's limits allow the frame. */
  lemma {:induction false} SendStaysIff(c: Crypto, st: SendSt, payload: Bytes, now: int, io: Io)
    requires AeadCorrect(c) && st.counter < TWO64
    ensures var o := SendS(c, st, payload, now, io);
      && (Within(st, |payload|, now) ==>
            && o.st.epoch == st.epoch && o.st.key == st.key && o.st.salt == st.salt && o.st.base == st.base
            && |o.frames| <= 1 && forall f :: f in o.frames ==> f.typ == FRAME_DATA)
      && (!Within(st, |payload|, now) && st.epoch < 255 && io.rekeyOk ==>
            && o.st.epoch == st.epoch + 1 && o.st.base == now
            && 1 <= |o.frames| <= 2 && o.frames[0] == Frame(FRAME_REKEY, [REASON_EXPLICIT]))
      && (!Within(st, |payload|, now) && (st.epoch == 255 || !io.rekeyOk) ==>
            o == SendOut(st, [], None, Some(if st.epoch == 255 then EpochExhausted else WriteFailed)))
  {
    hide EmitS, Ratchet, AeadCorrect, Fits;
    EmitExactly(c, st, payload, io.dataOk);
    EmitExactly(c, RekeyS(c, st, now, io.rekeyOk).st, payload, io.dataOk);
  }

  /**
   And it succeeds if and only if the frame fits, the transport takes what is written, and either the
   limits allow the frame or there is a next epoch; then the payload is the last frame it sends.
   */
  lemma {:induction false} SendSucceedsIff(c: Crypto, st: SendSt, payload: Bytes, now: int, io: Io)
    requires AeadCorrect(c) && st.counter < TWO64
    ensures var (o, inside) := (SendS(c, st, payload, now, io), Within(st, |payload|, now));
      && (o.err.None? <==> Fits(payload) && io.dataOk && (inside || (st.epoch < 255 && io.rekeyOk)))
      && (o.err.None? ==>
            && |o.frames| == (if inside then 1 else 2) && o.frames[|o.frames| - 1].typ == FRAME_DATA
            && o.st.counter == (if inside then st.counter else 0) + 1
            && o.st.sent == (if inside then st.sent else 0) + |payload|
            && var d := DecodeData(o.frames[|o.frames| - 1].body);
               && d.Some? && d.value.counter == o.st.counter - 1
               && c.open(o.st.key, Nonce(o.st.salt, d.value.counter), Aad(|payload| + 28, st.dir, o.st.epoch),
                         d.value.ct) == Some(payload))
  {
    hide EmitS, Ratchet, AeadCorrect;
    var m := if Within(st, |payload|, now) then st else RekeyS(c, st, now, io.rekeyOk).st;
    EmitExactly(c, m, payload, io.dataOk);
    if Fits(payload) {
      SealedOpens(c, m, payload);
    }
  }

  lemma {:induction false} SealedOpens(c: Crypto, st: SendSt, payload: Bytes)
    requires AeadCorrect(c) && Fits(payload)
    ensures c.open(st.key, Nonce(st.salt, st.counter), Aad(|payload| + 28, st.dir, st.epoch),
                   Seal(c, RecordOf(st, payload))) == Some(payload)
  {
    hide Nonce, Aad;
  }

  /** A Rekey succeeds if and only if there is a next epoch and the transport takes the frame. */
  lemma {:induction false} RekeySucceedsIff(c: Crypto, st: SendSt, now: int, ok: bool)
    ensures var o := RekeyS(c, st, now, ok);
      && (o.err.None? <==> st.epoch < 255 && ok)
      && (o.err.None? ==> o.st.epoch == st.epoch + 1 && o.st.counter == 0 && o.st.sent == 0 && o.st.base == now)
      && (o.err.Some? ==> o.st == st && o.frames == [])
  {
    hide Ratchet;
  }

  function TotalBytes(ops: seq<Op>): nat
    decreases |ops|
  {
    if ops == [] then 0 else (if ops[0].Send? then |ops[0].payload| else 0) + TotalBytes(ops[1..])
  }

  /** Sends that fit, over a working transport, before the epoch is an hour old. */
  predicate Ordinary(base: int, ops: seq<Op>)
  {
    forall k :: 0 <= k < |ops| ==>
      ops[k].Send? && Fits(ops[k].payload) && ops[k].io.dataOk && ops[k].now - base < 3_600_000_000_000
  }

  function LastState(c: Crypto, st: SendSt, ops: seq<Op>): SendSt
    decreases |ops|
  {
    if ops == [] then st else LastState(c, Do(c, st, ops[0]).st, ops[1..])
  }

  function SentFrames(c: Crypto, st: SendSt, ops: seq<Op>): seq<Frame>
    decreases |ops|
  {
    if ops == [] then [] else Do(c, st, ops[0]).frames + SentFrames(c, Do(c, st, ops[0]).st, ops[1..])
  }

  /** Until an epoch's frames, bytes or hour are used up, every such Send is one DATA frame of that epoch. */
  lemma {:induction false} EpochLasts(c: Crypto, st: SendSt, ops: seq<Op>)
    requires AeadCorrect(c) && Ordinary(st.base, ops)
    requires st.counter + |ops| < 0x8000_0000 && st.sent + TotalBytes(ops) < 107_374_182_400
    ensures Succeeded(c, st, ops) == |ops| == |SentFrames(c, st, ops)|
    ensures forall f :: f in SentFrames(c, st, ops) ==> f.typ == FRAME_DATA
    ensures LastState(c, st, ops) == st.(counter := st.counter + |ops|, sent := st.sent + TotalBytes(ops))
    decreases |ops|
  {
    hide AeadCorrect, SendS, Fits, DecodeData;
    if ops != [] {
      var (o, p) := (Do(c, st, ops[0]), ops[0].payload);
      SendStaysIff(c, st, p, ops[0].now, ops[0].io);
      SendSucceedsIff(c, st, p, ops[0].now, ops[0].io);
      assert o.st == st.(counter := st.counter + 1, sent := st.sent + |p|) by { StaysItself(c, st, ops[0]); }
      assert o.frames == [o.frames[0]];
      EpochLasts(c, o.st, ops[1..]);
    }
  }

  lemma {:induction false} StaysItself(c: Crypto, st: SendSt, op: Op)
    requires Do(c, st, op).st.epoch == st.epoch && Do(c, st, op).st.key == st.key && Do(c, st, op).st.salt == st.salt
    requires Do(c, st, op).st.base == st.base
    ensures Do(c, st, op).st == st.(counter := Do(c, st, op).st.counter, sent := Do(c, st, op).st.sent)
  {
    hide EmitS;
    if op.Send? {
      EmitDir(c, st, op.payload, op.io.dataOk);
      EmitDir(c, RekeyS(c, st, op.now, op.io.rekeyOk).st, op.payload, op.io.dataOk);
    }
  }

  lemma {:induction false} EmitDir(c: Crypto, st: SendSt, payload: Bytes, ok: bool)
    ensures EmitS(c, st, payload, ok).st.dir == st.dir
  {
    hide RecordOf, Seal;
  }
}
