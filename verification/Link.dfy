/**
 A session over a faithful byte channel: both directions, every interleaving of Send, Rekey and Recv
 at both ends, every way the bytes can arrive in pieces.
 */
module Link {
  import opened ByteStrings
  import opened Frames
  import opened Primitives
  import opened Records
  import opened SendRuns
  import opened Sessions

  /** One direction: sender, receiver, the bytes between them, and what was sealed and opened so far. */
  datatype Direction = Direction(s: SendSt, r: RecvSt, wire: Bytes, sent: seq<Record>, got: seq<Record>)

  datatype Side = A | B

  /** Both directions, and the failures any Recv has reported. */
  datatype State = State(ab: Direction, ba: Direction, failures: seq<Error>)

  /** A sending operation, or a Recv when the first `arrived` bytes of the wire are there. */
  datatype Step = Act(side: Side, op: Op) | Recv(side: Side, arrived: nat)

  function Sent(o: SendOut): seq<Record>
  {
    if o.used.Some? && o.err.None? then [o.used.value] else []
  }

  function Opened(o: RecvOut): seq<Record>
  {
    if o.outcome.Delivered? then [o.outcome.record] else []
  }

  function Push(c: Crypto, d: Direction, op: Op): Direction
  {
    var o := Do(c, d.s, op);
    d.(s := o.st, wire := d.wire + Envelopes(o.frames), sent := d.sent + Sent(o))
  }

  function Pull(c: Crypto, d: Direction, arrived: nat): (Direction, RecvOut)
  {
    var n := if arrived < |d.wire| then arrived else |d.wire|;
    var (o, rest) := RecvS(c, d.r, d.wire[..n]);
    (d.(r := o.st, wire := rest + d.wire[n..], got := d.got + Opened(o)), o)
  }

  /** An ALERT a Recv answers with goes out on the other direction's wire. */
  function Answer(d: Direction, o: RecvOut): Direction
  {
    if o.alert.None? then d
    else d.(wire := d.wire + Envelope(Frame(FRAME_ALERT, EncodeAlert(Alert(o.alert.value, [])))))
  }

  function Failures(o: RecvOut): seq<Error>
  {
    if o.outcome.Failed? then [o.outcome.error] else []
  }

  function Next(c: Crypto, l: State, step: Step): State
  {
    match step
    case Act(A, op) => l.(ab := Push(c, l.ab, op))
    case Act(B, op) => l.(ba := Push(c, l.ba, op))
    case Recv(B, n) =>
      var (d, o) := Pull(c, l.ab, n);
      State(d, Answer(l.ba, o), l.failures + Failures(o))
    case Recv(A, n) =>
      var (d, o) := Pull(c, l.ba, n);
      State(Answer(l.ab, o), d, l.failures + Failures(o))
  }

  function Run(c: Crypto, l: State, steps: seq<Step>): State
    decreases |steps|
  {
    if steps == [] then l else Run(c, Next(c, l, steps[0]), steps[1..])
  }

  // ---- what is in flight ----

  /** Feeding frames to the receiver, as long as none is refused: the state reached and the records opened. */
  function Flow(c: Crypto, r: RecvSt, fs: seq<Frame>): Option<(RecvSt, seq<Record>)>
    decreases |fs|
  {
    if fs == [] then Some((r, []))
    else
      var o := AcceptS(c, r, fs[0]);
      if o.outcome.Failed? then None
      else
        match Flow(c, o.st, fs[1..])
        case None => None
        case Some(rest) => Some((rest.0, Opened(o) + rest.1))
  }

  lemma {:induction false} FlowConcat(c: Crypto, r: RecvSt, a: seq<Frame>, b: seq<Frame>)
    requires Flow(c, r, a).Some? && Flow(c, Flow(c, r, a).value.0, b).Some?
    ensures Flow(c, r, a + b) ==
      Some((Flow(c, Flow(c, r, a).value.0, b).value.0,
            Flow(c, r, a).value.1 + Flow(c, Flow(c, r, a).value.0, b).value.1))
    decreases |a|
  {
    hide AcceptS;
    if a == [] {
      assert a + b == b;
      assert [] + Flow(c, r, b).value.1 == Flow(c, r, b).value.1;
    } else {
      var o := AcceptS(c, r, a[0]);
      FlowConcat(c, o.st, a[1..], b);
      assert (a + b)[0] == a[0] && (a + b)[1..] == a[1..] + b;
      var x, y := Flow(c, o.st, a[1..]).value.1, Flow(c, Flow(c, r, a).value.0, b).value.1;
      assert Opened(o) + (x + y) == Opened(o) + x + y;
    }
  }

  /** Receiver state the sender's next frame will find: same key, salt, epoch and direction. */
  predicate InSync(s: SendSt, r: RecvSt)
  {
    && s.key == r.key && s.salt == r.salt && s.epoch == r.epoch && s.dir == r.dir
    && s.counter < FRAME_CAP && (r.have ==> r.counter < s.counter)
  }

  predicate AllSendable(fs: seq<Frame>)
  {
    forall i :: 0 <= i < |fs| ==> Sendable(fs[i])
  }

  /** The DATA frame of a Send, met in sync, opens to the record that was sealed. */
  lemma {:induction false} EmitFlows(c: Crypto, s: SendSt, payload: Bytes, ok: bool, r: RecvSt)
    requires AeadCorrect(c) && InSync(s, r) && s.counter < FRAME_CAP - 1
    ensures var o := EmitS(c, s, payload, ok);
      && AllSendable(o.frames) && Flow(c, r, o.frames).Some?
      && Flow(c, r, o.frames).value.1 == Sent(o) && InSync(o.st, Flow(c, r, o.frames).value.0)
  {
    hide EncodeData, DecodeData, Nonce, Aad, AeadCorrect, Flow;
    var o := EmitS(c, s, payload, ok);
    if o.err.None? {
      var rec := RecordOf(s, payload);
      var ct := Seal(c, rec);
      PowFacts();
      DataLength(Data(s.counter, ct));
      DataRoundTrip(Data(s.counter, ct));
      Opens(c, rec);
      OneFlow(c, r, o.frames[0]);
    } else {
      NoFlow(c, r);
    }
  }

  lemma {:induction false} Opens(c: Crypto, r: Record)
    requires AeadCorrect(c)
    ensures c.open(r.key, r.nonce, r.aad, Seal(c, r)) == Some(r.payload)
  {
  }

  lemma {:induction false} NoFlow(c: Crypto, r: RecvSt)
    ensures Flow(c, r, []) == Some((r, []))
  {
  }

  lemma {:induction false} OneFlow(c: Crypto, r: RecvSt, f: Frame)
    requires !AcceptS(c, r, f).outcome.Failed?
    ensures Flow(c, r, [f]) == Some((AcceptS(c, r, f).st, Opened(AcceptS(c, r, f))))
  {
    hide AcceptS;
    NoFlow(c, AcceptS(c, r, f).st);
    assert [f][1..] == [];
    assert Opened(AcceptS(c, r, f)) + [] == Opened(AcceptS(c, r, f));
  }

  lemma {:induction false} RekeyFlows(c: Crypto, s: SendSt, now: int, ok: bool, r: RecvSt)
    requires InSync(s, r)
    ensures var o := RekeyS(c, s, now, ok);
      && AllSendable(o.frames) && Flow(c, r, o.frames).Some?
      && Flow(c, r, o.frames).value.1 == Sent(o) && InSync(o.st, Flow(c, r, o.frames).value.0)
  {
    hide Flow;
    var o := RekeyS(c, s, now, ok);
    if o.err.None? {
      OneFlow(c, r, o.frames[0]);
    } else {
      NoFlow(c, r);
    }
  }

  /** Whatever a sending operation writes, the receiver follows it and is in sync again. */
  lemma {:induction false} OpFlows(c: Crypto, s: SendSt, op: Op, r: RecvSt)
    requires AeadCorrect(c) && InSync(s, r)
    ensures var o := Do(c, s, op);
      && AllSendable(o.frames) && Flow(c, r, o.frames).Some?
      && Flow(c, r, o.frames).value.1 == Sent(o) && InSync(o.st, Flow(c, r, o.frames).value.0)
  {
    hide EmitS, RekeyS, Flow, AeadCorrect, Sendable;
    match op
    case Rekey(now, ok) => RekeyFlows(c, s, now, ok, r);
    case Send(p, now, io) =>
      if !NeedsRekey(s, |p|, now) {
        EmitFlows(c, s, p, io.dataOk, r);
      } else {
        RekeyFlows(c, s, now, io.rekeyOk, r);
        var k := RekeyS(c, s, now, io.rekeyOk);
        if k.err.None? {
          RekeyRestarts(c, s, now, io.rekeyOk);
          var mid := Flow(c, r, k.frames).value.0;
          EmitFlows(c, k.st, p, io.dataOk, mid);
          FlowConcat(c, r, k.frames, EmitS(c, k.st, p, io.dataOk).frames);
        }
      }
  }

  lemma {:induction false} RekeyRestarts(c: Crypto, s: SendSt, now: int, ok: bool)
    requires RekeyS(c, s, now, ok).err.None?
    ensures RekeyS(c, s, now, ok).st.counter == 0 && Sent(RekeyS(c, s, now, ok)) == []
  {
  }

  // ---- receiving from a wire of whole frames that may have arrived in part ----

  /** One Recv on a prefix of the wire takes whole frames off the front and nothing is refused. */
  lemma {:induction false} RecvFlows(c: Crypto, r: RecvSt, fs: seq<Frame>, n: nat) returns (rest: seq<Frame>)
    requires AllSendable(fs) && Flow(c, r, fs).Some? && n <= |Envelopes(fs)|
    ensures var (o, left) := RecvS(c, r, Envelopes(fs)[..n]);
      && left + Envelopes(fs)[n..] == Envelopes(rest) && AllSendable(rest)
      && o.alert.None? && !o.outcome.Failed?
      && Flow(c, o.st, rest).Some? && Flow(c, o.st, rest).value.0 == Flow(c, r, fs).value.0
      && Flow(c, r, fs).value.1 == Opened(o) + Flow(c, o.st, rest).value.1
    decreases |fs|
  {
    hide Envelope, ReadFrame, AcceptS, Sendable;
    rest := fs;
    var w := Envelopes(fs);
    if fs == [] {
      ReadNothing();
      assert w[..n] == [];
    } else {
      var e, tail := Envelope(fs[0]), Envelopes(fs[1..]);
      PartialFrame(fs[0], tail, n);
      if n < |e| {
        assert w[..n] + w[n..] == w;
      } else {
        var o := AcceptS(c, r, fs[0]);
        NoAlert(c, r, fs[0]);
        var m := n - |e|;
        assert w[n..] == tail[m..];
        if o.outcome.Waiting? {
          rest := RecvFlows(c, o.st, fs[1..], m);
        } else {
          rest := fs[1..];
          assert tail[..m] + tail[m..] == tail;
        }
      }
    }
  }

  lemma {:induction false} ReadNothing()
    ensures ReadFrame([]) == Short
  {
  }

  lemma {:induction false} NoAlert(c: Crypto, r: RecvSt, f: Frame)
    requires !AcceptS(c, r, f).outcome.Failed?
    ensures AcceptS(c, r, f).alert.None?
  {
  }

  // ---- the invariant ----

  predicate Faithful(c: Crypto, d: Direction)
  {
    var fs := FramesOf(d.wire);
    && AllSendable(fs) && Envelopes(fs) == d.wire && Flow(c, d.r, fs).Some?
    && InSync(d.s, Flow(c, d.r, fs).value.0)
    && d.got + Flow(c, d.r, fs).value.1 == d.sent
  }

  lemma {:induction false} FaithfulBy(c: Crypto, d: Direction, fs: seq<Frame>)
    requires AllSendable(fs) && Envelopes(fs) == d.wire && Flow(c, d.r, fs).Some?
    requires InSync(d.s, Flow(c, d.r, fs).value.0) && d.got + Flow(c, d.r, fs).value.1 == d.sent
    ensures Faithful(c, d)
  {
    hide Envelopes, FramesOf, Flow, InSync;
    StreamRoundTrip(fs);
  }

  lemma {:induction false} PushFaithful(c: Crypto, d: Direction, op: Op)
    requires AeadCorrect(c) && Faithful(c, d)
    ensures Faithful(c, Push(c, d, op))
  {
    hide Envelopes, FramesOf, Flow, InSync, Do, AeadCorrect, Sendable;
    var fs, o := FramesOf(d.wire), Do(c, d.s, op);
    var (r, rs) := Flow(c, d.r, fs).value;
    OpFlows(c, d.s, op, r);
    FlowConcat(c, d.r, fs, o.frames);
    EnvelopesConcat(fs, o.frames);
    assert d.got + (rs + Sent(o)) == d.sent + Sent(o);
    FaithfulBy(c, Push(c, d, op), fs + o.frames);
  }

  lemma {:induction false} PullFaithful(c: Crypto, d: Direction, arrived: nat)
    requires Faithful(c, d)
    ensures Faithful(c, Pull(c, d, arrived).0)
    ensures Pull(c, d, arrived).1.alert.None? && !Pull(c, d, arrived).1.outcome.Failed?
  {
    hide Envelopes, FramesOf, Flow, InSync, Sendable, RecvS;
    var fs := FramesOf(d.wire);
    var n := if arrived < |d.wire| then arrived else |d.wire|;
    var rest := RecvFlows(c, d.r, fs, n);
    var (o, left) := RecvS(c, d.r, d.wire[..n]);
    assert d.got + Opened(o) + Flow(c, o.st, rest).value.1 == d.got + (Opened(o) + Flow(c, o.st, rest).value.1);
    FaithfulBy(c, Pull(c, d, arrived).0, rest);
  }

  predicate Good(c: Crypto, l: State)
  {
    Faithful(c, l.ab) && Faithful(c, l.ba) && l.failures == []
  }

  lemma {:induction false} NextGood(c: Crypto, l: State, step: Step)
    requires AeadCorrect(c) && Good(c, l)
    ensures Good(c, Next(c, l, step))
  {
    hide Faithful, AeadCorrect, Push, Pull;
    match step
    case Act(A, op) => PushFaithful(c, l.ab, op);
    case Act(B, op) => PushFaithful(c, l.ba, op);
    case Recv(A, n) => PullFaithful(c, l.ba, n);
    case Recv(B, n) => PullFaithful(c, l.ab, n);
  }

  lemma {:induction false} RunGood(c: Crypto, l: State, steps: seq<Step>)
    requires AeadCorrect(c) && Good(c, l)
    ensures Good(c, Run(c, l, steps))
    decreases |steps|
  {
    hide Good, AeadCorrect, Next;
    if steps != [] {
      NextGood(c, l, steps[0]);
      RunGood(c, Next(c, l, steps[0]), steps[1..]);
    }
  }

  function Opening(send: SendSt, recv: RecvSt): Direction
  {
    Direction(send, recv, [], [], [])
  }

  /** Both ends have just derived the same keys. */
  function Established(keys: SessionKeys, nowA: int, nowB: int): State
  {
    State(Opening(FirstSend(ROLE_I, keys, nowA), FirstRecv(ROLE_R, keys)),
          Opening(FirstSend(ROLE_R, keys, nowB), FirstRecv(ROLE_I, keys)), [])
  }

  lemma {:induction false} EstablishedGood(c: Crypto, keys: SessionKeys, nowA: int, nowB: int)
    ensures Good(c, Established(keys, nowA, nowB))
  {
    hide FramesOf;
    var l := Established(keys, nowA, nowB);
    assert AllSendable([]);
    NoFlow(c, l.ab.r);
    NoFlow(c, l.ba.r);
    FaithfulBy(c, l.ab, []);
    FaithfulBy(c, l.ba, []);
  }

  /**
   In every interleaving, in both directions: what Recv has returned is a prefix of what Send has
   sealed, each record opened under the very key, nonce, epoch and associated data it was sealed
   under; no Recv fails and no ALERT is sent; and with nothing in flight, nothing is missing.
   */
  lemma {:induction false} EveryRunFaithful(c: Crypto, keys: SessionKeys, nowA: int, nowB: int, steps: seq<Step>)
    requires AeadCorrect(c)
    ensures var l := Run(c, Established(keys, nowA, nowB), steps);
      && l.ab.got <= l.ab.sent && l.ba.got <= l.ba.sent && l.failures == []
      && (l.ab.wire == [] ==> l.ab.got == l.ab.sent && InSync(l.ab.s, l.ab.r))
      && (l.ba.wire == [] ==> l.ba.got == l.ba.sent && InSync(l.ba.s, l.ba.r))
  {
    hide Run, Established, AeadCorrect, InSync, Envelopes, Sendable;
    EstablishedGood(c, keys, nowA, nowB);
    RunGood(c, Established(keys, nowA, nowB), steps);
    var l := Run(c, Established(keys, nowA, nowB), steps);
    Drained(c, l.ab);
    Drained(c, l.ba);
  }

  lemma {:induction false} Drained(c: Crypto, d: Direction)
    requires Faithful(c, d)
    ensures d.got <= d.sent
    ensures d.wire == [] ==> d.got == d.sent && InSync(d.s, d.r)
  {
    hide InSync, Envelopes;
    if d.wire == [] {
      ReadNothing();
      assert FramesOf(d.wire) == [];
      NoFlow(c, d.r);
    }
  }
}
