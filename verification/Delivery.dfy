/**
 What a receiver returns when the wire belongs to an adversary: any byte stream at all is fed to
 successive calls of Recv, and the payloads that come out are the peer's, in order and at most once.
 */
module Delivery {
  import opened ByteStrings
  import opened Frames
  import opened Primitives
  import opened Records
  import opened SendRuns

  /** The payloads returned by calling Recv until the stream is used up. */
  function Returned(c: Crypto, st: RecvSt, stream: Bytes): seq<Bytes>
    decreases |stream|
  {
    var (o, rest) := RecvS(c, st, stream);
    match o.outcome
    case Delivered(r) => [r.payload] + Returned(c, o.st, rest)
    case Failed(_) => Returned(c, o.st, rest)
    case Waiting => []
  }

  /** The same, frame by frame, with what each payload was opened under. */
  function Opened(c: Crypto, st: RecvSt, stream: Bytes): seq<Record>
    decreases |stream|
  {
    match ReadFrame(stream)
    case Short => []
    case TooLarge => Opened(c, st, stream[5..])
    case Got(f, rest) =>
      var o := AcceptS(c, st, f);
      (if o.outcome.Delivered? then [o.outcome.record] else []) + Opened(c, o.st, rest)
  }

  function Payloads(rs: seq<Record>): seq<Bytes>
  {
    seq(|rs|, i requires 0 <= i < |rs| => rs[i].payload)
  }

  lemma {:induction false} OneCall(c: Crypto, st: RecvSt, stream: Bytes)
    ensures var (o, rest) := RecvS(c, st, stream);
      Opened(c, st, stream) ==
        (match o.outcome
         case Delivered(r) => [r] + Opened(c, o.st, rest)
         case Failed(_) => Opened(c, o.st, rest)
         case Waiting => [])
    decreases |stream|
  {
    hide AcceptS;
    match ReadFrame(stream)
    case Short =>
    case TooLarge =>
    case Got(f, rest) =>
      var o := AcceptS(c, st, f);
      if o.outcome.Waiting? {
        OneCall(c, o.st, rest);
      }
  }

  lemma {:induction false} CallsAreFrames(c: Crypto, st: RecvSt, stream: Bytes)
    ensures Returned(c, st, stream) == Payloads(Opened(c, st, stream))
    decreases |stream|
  {
    hide RecvS, Opened;
    var (o, rest) := RecvS(c, st, stream);
    OneCall(c, st, stream);
    if !o.outcome.Waiting? {
      CallsAreFrames(c, o.st, rest);
    }
  }

  // ---- what the AEAD is asked for ----

  function RecordsOf(us: seq<Use>): seq<Record>
  {
    seq(|us|, i requires 0 <= i < |us| => us[i].record)
  }

  /** The frame's ciphertext is one that was sealed, under the key, nonce and data it opened with. */
  predicate Sealed(c: Crypto, f: Frame, r: Record, sealed: seq<Record>)
  {
    exists k :: 0 <= k < |sealed| && SameSeal(c, f, r, sealed[k])
  }

  predicate SameSeal(c: Crypto, f: Frame, r: Record, s: Record)
  {
    && s.key == r.key && s.nonce == r.nonce && s.aad == r.aad
    && DecodeData(f.body).Some? && DecodeData(f.body).value.ct == Seal(c, s)
  }

  /** Nothing on this stream opens unless one of the two ends sealed it. */
  predicate Unforged(c: Crypto, st: RecvSt, stream: Bytes, sealed: seq<Record>)
    decreases |stream|
  {
    match ReadFrame(stream)
    case Short => true
    case TooLarge => Unforged(c, st, stream[5..], sealed)
    case Got(f, rest) =>
      var o := AcceptS(c, st, f);
      && (o.outcome.Delivered? ==> Sealed(c, f, o.outcome.record, sealed))
      && Unforged(c, o.st, rest, sealed)
  }

  // ---- the receiver's side: positions only go up ----

  predicate Listening(st: RecvSt)
  {
    st.counter < FRAME_CAP && |st.salt| == 4
  }

  /** The least position the receiver would still accept. */
  function Floor(st: RecvSt): nat
  {
    At(st.epoch, if st.have then st.counter + 1 else 0)
  }

  lemma {:induction false} AcceptFacts(c: Crypto, st: RecvSt, f: Frame)
    requires Listening(st) && OutputLengths(c)
    ensures var o := AcceptS(c, st, f);
      && Listening(o.st) && o.st.dir == st.dir && Floor(st) <= Floor(o.st)
      && (o.outcome.Delivered? ==>
            var r := o.outcome.record;
            && f.typ == FRAME_DATA && DecodeData(f.body).Some?
            && Floor(st) <= Pos(r) < Floor(o.st) && r.counter < FRAME_CAP
            && |r.nonce| == 12 && r.nonce[4..] == BE(r.counter, 8)
            && |r.aad| == 7 && r.aad[5] == st.dir && r.aad[6] == r.epoch
            && c.open(r.key, r.nonce, r.aad, DecodeData(f.body).value.ct) == Some(r.payload))
  {
    hide BE, FromBE, DecodeData, DecodeAlert;
    PowFacts();
    if f.typ == FRAME_DATA && DecodeData(f.body).Some? {
      var d := DecodeData(f.body).value;
      if d.counter < FRAME_CAP {
        var n := Nonce(st.salt, d.counter);
        assert n[4..] == BE(d.counter, 8);
      }
    }
  }

  /** What was opened was sealed by the peer, at the same position, with the same payload. */
  predicate PeerSealed(us: seq<Use>, r: Record)
  {
    exists k :: 0 <= k < |us| && SameUse(us[k], r)
  }

  predicate SameUse(u: Use, r: Record)
  {
    u.record.key == r.key && u.record.nonce == r.nonce && u.record.aad == r.aad &&
    Pos(u.record) == Pos(r) && u.record.payload == r.payload
  }

  lemma {:induction false} SealMatches(c: Crypto, st: RecvSt, f: Frame, s: Record, dir: byte)
    requires Listening(st) && OutputLengths(c) && AeadCorrect(c)
    requires AcceptS(c, st, f).outcome.Delivered?
    requires Bound(s, dir) && SameSeal(c, f, AcceptS(c, st, f).outcome.record, s)
    ensures dir == st.dir
    ensures s.epoch == AcceptS(c, st, f).outcome.record.epoch && s.counter == AcceptS(c, st, f).outcome.record.counter
    ensures s.payload == AcceptS(c, st, f).outcome.record.payload
  {
    hide BE, AcceptS, OutputLengths, DecodeData;
    AcceptFacts(c, st, f);
    var r := AcceptS(c, st, f).outcome.record;
    PowFacts();
    BEInjective(s.counter, r.counter, 8);
    assert c.open(s.key, s.nonce, s.aad, c.seal(s.key, s.nonce, s.aad, s.payload)) == Some(s.payload);
  }

  /** The records opened, each with a use of the peer's that it comes from, at rising positions. */
  predicate Rising(rs: seq<Record>, floor: nat)
  {
    && (forall i :: 0 <= i < |rs| ==> floor <= Pos(rs[i]))
    && (forall i, j :: 0 <= i < j < |rs| ==> Pos(rs[i]) < Pos(rs[j]))
  }

  lemma {:induction false} RisingCons(r: Record, rs: seq<Record>, floor: nat, next: nat)
    requires Rising(rs, next) && floor <= Pos(r) < next
    ensures Rising([r] + rs, floor)
  {
  }

  lemma {:induction false} OpenedRising(c: Crypto, st: RecvSt, stream: Bytes)
    requires Listening(st) && OutputLengths(c)
    ensures Rising(Opened(c, st, stream), Floor(st))
    decreases |stream|
  {
    hide AcceptS, OutputLengths, Floor, Listening, Pos;
    match ReadFrame(stream)
    case Short =>
    case TooLarge => OpenedRising(c, st, stream[5..]);
    case Got(f, rest) =>
      AcceptFacts(c, st, f);
      var o := AcceptS(c, st, f);
      OpenedRising(c, o.st, rest);
      var later := Opened(c, o.st, rest);
      if o.outcome.Delivered? {
        RisingCons(o.outcome.record, later, Floor(st), Floor(o.st));
      } else {
        assert Opened(c, st, stream) == later;
      }
  }

  lemma {:induction false} OpenedPeerSealed(c: Crypto, st: RecvSt, stream: Bytes, peer: seq<Use>, own: seq<Use>,
                                            ownDir: byte)
    requires Listening(st) && OutputLengths(c) && AeadCorrect(c) && ownDir != st.dir
    requires forall u :: u in peer ==> Bound(u.record, st.dir)
    requires forall u :: u in own ==> Bound(u.record, ownDir)
    requires Unforged(c, st, stream, RecordsOf(peer) + RecordsOf(own))
    ensures forall r :: r in Opened(c, st, stream) ==> PeerSealed(peer, r)
    decreases |stream|
  {
    hide AcceptS, OutputLengths, AeadCorrect, Listening, Bound, SameUse, PeerSealed;
    match ReadFrame(stream)
    case Short =>
    case TooLarge => OpenedPeerSealed(c, st, stream[5..], peer, own, ownDir);
    case Got(f, rest) =>
      AcceptFacts(c, st, f);
      var o := AcceptS(c, st, f);
      OpenedPeerSealed(c, o.st, rest, peer, own, ownDir);
      if o.outcome.Delivered? {
        FrameFromPeer(c, st, f, peer, own, ownDir);
      }
  }

  /** A reflected frame never opens: the associated data carries the other direction. */
  lemma {:induction false} FrameFromPeer(c: Crypto, st: RecvSt, f: Frame, peer: seq<Use>, own: seq<Use>, ownDir: byte)
    requires Listening(st) && OutputLengths(c) && AeadCorrect(c) && ownDir != st.dir
    requires forall u :: u in peer ==> Bound(u.record, st.dir)
    requires forall u :: u in own ==> Bound(u.record, ownDir)
    requires AcceptS(c, st, f).outcome.Delivered?
    requires Sealed(c, f, AcceptS(c, st, f).outcome.record, RecordsOf(peer) + RecordsOf(own))
    ensures PeerSealed(peer, AcceptS(c, st, f).outcome.record)
  {
    hide AcceptS, OutputLengths, AeadCorrect, Listening, Bound;
    var r := AcceptS(c, st, f).outcome.record;
    var sealed := RecordsOf(peer) + RecordsOf(own);
    var k :| 0 <= k < |sealed| && SameSeal(c, f, r, sealed[k]);
    var s := sealed[k];
    var dir := if k < |peer| then st.dir else ownDir;
    assert Bound(s, dir) by {
      if k < |peer| {
        assert s == peer[k].record && peer[k] in peer;
      } else {
        assert s == own[k - |peer|].record && own[k - |peer|] in own;
      }
    }
    SealMatches(c, st, f, s, dir);
    assert SameUse(peer[k], r);
  }

  // ---- the theorem ----

  /** Payload i is the one operation idx[i] was given, and the operations are taken in order, each once. */
  predicate InOrder(payloads: seq<Bytes>, ops: seq<Op>, idx: seq<nat>)
  {
    && |idx| == |payloads|
    && (forall i :: 0 <= i < |idx| ==> idx[i] < |ops| && ops[idx[i]].Send? && ops[idx[i]].payload == payloads[i])
    && (forall i, j :: 0 <= i < j < |idx| ==> idx[i] < idx[j])
  }

  /**
   For every stream of bytes - frames dropped, repeated, reordered, reflected, invented, REKEYs added -
   the payloads Recv returns are an in-order subsequence, without repeats, of those the peer passed to
   Send. Failed writes on the peer's side change nothing here.
   */
  lemma {:induction false} DeliveredInOrder(c: Crypto, peer: SendSt, peerOps: seq<Op>, own: SendSt, ownOps: seq<Op>,
                                            st: RecvSt, stream: Bytes)
    requires OutputLengths(c) && AeadCorrect(c)
    requires Running(peer) && Running(own) && Listening(st) && peer.dir == st.dir != own.dir
    requires Unforged(c, st, stream, RecordsOf(Uses(c, peer, peerOps, 0)) + RecordsOf(Uses(c, own, ownOps, 0)))
    ensures exists idx :: InOrder(Returned(c, st, stream), peerOps, idx)
  {
    hide OutputLengths, AeadCorrect, Running, Listening, Uses, Unforged, Returned, Opened;
    var us, mine := Uses(c, peer, peerOps, 0), Uses(c, own, ownOps, 0);
    UsesPlaced(c, peer, peerOps, 0);
    UsesOrdered(c, peer, peerOps, 0);
    UsesPlaced(c, own, ownOps, 0);
    CallsAreFrames(c, st, stream);
    OpenedRising(c, st, stream);
    OpenedPeerSealed(c, st, stream, us, mine, own.dir);
    Indices(us, peer, peerOps, Opened(c, st, stream), Floor(st));
  }

  lemma {:induction false} Indices(us: seq<Use>, st: SendSt, ops: seq<Op>, rs: seq<Record>, floor: nat)
    requires Ordered(us) && Rising(rs, floor)
    requires forall u :: u in us ==> Placed(st, ops, 0, u)
    requires forall r :: r in rs ==> PeerSealed(us, r)
    ensures exists idx :: InOrder(Payloads(rs), ops, idx)
  {
    hide Bound, SaltOf, Pos;
    var pick := seq(|rs|, i requires 0 <= i < |rs| => UseIndex(us, rs[i]));
    var idx := seq(|rs|, i requires 0 <= i < |rs| => us[pick[i]].op);
    forall i | 0 <= i < |rs|
      ensures idx[i] < |ops| && ops[idx[i]].Send? && ops[idx[i]].payload == rs[i].payload
    {
      assert us[pick[i]] in us && Placed(st, ops, 0, us[pick[i]]);
    }
    forall i, j | 0 <= i < j < |rs|
      ensures idx[i] < idx[j]
    {
      assert Pos(us[pick[i]].record) < Pos(us[pick[j]].record);
      Earlier(us, pick[i], pick[j]);
    }
    assert InOrder(Payloads(rs), ops, idx);
  }

  ghost function UseIndex(us: seq<Use>, r: Record): (k: nat)
    requires PeerSealed(us, r)
    ensures k < |us| && SameUse(us[k], r)
  {
    var k :| 0 <= k < |us| && SameUse(us[k], r);
    k
  }

  /** Uses are ordered, so the lower position is the earlier operation. */
  lemma {:induction false} Earlier(us: seq<Use>, a: nat, b: nat)
    requires Ordered(us) && a < |us| && b < |us| && Pos(us[a].record) < Pos(us[b].record)
    ensures us[a].op < us[b].op
  {
    hide Pos, Ordered;
    if b < a {
      Monotone(us, b, a);
    } else if a < b {
      Monotone(us, a, b);
    }
  }

  lemma {:induction false} Monotone(us: seq<Use>, a: nat, b: nat)
    requires Ordered(us) && a < b < |us|
    ensures Pos(us[a].record) <= Pos(us[b].record) && us[a].op < us[b].op
  {
    assert Follows(us[a], us[b]);
  }
}
