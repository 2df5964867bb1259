/** The byte stream over a session: Write cuts into DATA frames, Read consumes a buffered payload. */
module PqConn {
  import opened ByteStrings
  import opened Frames
  import opened Primitives
  import opened Records
  import opened SendRuns
  import opened Sessions
  import opened Link

  const MAX_RECORD: nat := 65536

  function Flat(rs: seq<Record>): Bytes
  {
    if rs == [] then [] else Flat(rs[..|rs| - 1]) + rs[|rs| - 1].payload
  }

  lemma {:induction false} FlatConcat(a: seq<Record>, b: seq<Record>)
    ensures Flat(a + b) == Flat(a) + Flat(b)
    decreases |b|
  {
    if b == [] {
      assert a + b == a;
    } else {
      var n := |b| - 1;
      assert (a + b)[..|a + b| - 1] == a + b[..n];
      FlatConcat(a, b[..n]);
    }
  }

  // ---- Write ----

  /** The clock and the transport's answers, chunk by chunk. */
  type Env = nat -> (int, Io)

  datatype WriteOut = WriteOut(st: SendSt, frames: seq<Frame>, total: nat, err: Option<Error>)

  function Chunk(p: Bytes): Bytes
  {
    if |p| > MAX_RECORD then p[..MAX_RECORD] else p
  }

  function WriteS(c: Crypto, st: SendSt, p: Bytes, env: Env, i: nat): WriteOut
    decreases |p|
  {
    if p == [] then WriteOut(st, [], 0, None)
    else
      var chunk := Chunk(p);
      var o := SendS(c, st, chunk, env(i).0, env(i).1);
      if o.err.Some? then WriteOut(o.st, o.frames, 0, o.err)
      else
        var w := WriteS(c, o.st, p[|chunk|..], env, i + 1);
        WriteOut(w.st, o.frames + w.frames, |chunk| + w.total, w.err)
  }

  /** The Sends a Write makes: one per chunk, up to and including the first that fails. */
  function WriteOps(c: Crypto, st: SendSt, p: Bytes, env: Env, i: nat): seq<Op>
    decreases |p|
  {
    if p == [] then []
    else
      var op := Send(Chunk(p), env(i).0, env(i).1);
      var o := Do(c, st, op);
      [op] + (if o.err.Some? then [] else WriteOps(c, o.st, p[|Chunk(p)|..], env, i + 1))
  }

  function PushAll(c: Crypto, d: Direction, ops: seq<Op>): Direction
    decreases |ops|
  {
    if ops == [] then d else PushAll(c, Push(c, d, ops[0]), ops[1..])
  }

  /** A Write is its Sends, and the count it returns is exactly what of p was sent. */
  lemma {:induction false} WriteIsSends(c: Crypto, d: Direction, p: Bytes, env: Env, i: nat)
    requires Running(d.s) && OutputLengths(c)
    ensures var w := WriteS(c, d.s, p, env, i);
            var e := PushAll(c, d, WriteOps(c, d.s, p, env, i));
      && e.s == w.st && e.wire == d.wire + Envelopes(w.frames)
      && w.total <= |p| && Flat(e.sent) == Flat(d.sent) + p[..w.total]
      && (w.err.None? <==> w.total == |p|)
    decreases |p|
  {
    hide SendS, Flat, Envelopes, OutputLengths, Running;
    if p == [] {
      NoBytes(d);
    } else {
      var chunk := Chunk(p);
      var op := Send(chunk, env(i).0, env(i).1);
      var o := Do(c, d.s, op);
      var d1 := Push(c, d, op);
      SentPayload(c, d.s, op);
      FlatConcat(d.sent, Sent(o));
      if o.err.Some? {
        assert WriteOps(c, d.s, p, env, i) == [op];
        assert PushAll(c, d, [op]) == d1 by { OnePush(c, d, op); }
        assert Flat(d.sent) + [] == Flat(d.sent);
      } else {
        var q := p[|chunk|..];
        var w := WriteS(c, o.st, q, env, i + 1);
        WriteIsSends(c, d1, q, env, i + 1);
        EnvelopesConcat(o.frames, w.frames);
        var ops := WriteOps(c, d.s, p, env, i);
        assert ops[0] == op && ops[1..] == WriteOps(c, d1.s, q, env, i + 1);
        SeqAssoc(d.wire, Envelopes(o.frames), Envelopes(w.frames));
        assert p[..|chunk| + w.total] == chunk + q[..w.total];
        SeqAssoc(Flat(d.sent), chunk, q[..w.total]);
      }
    }
  }

  lemma {:induction false} NoBytes(d: Direction)
    ensures d.wire + Envelopes([]) == d.wire && Flat(d.sent) + [] == Flat(d.sent)
  {
  }

  lemma {:induction false} OnePush(c: Crypto, d: Direction, op: Op)
    ensures PushAll(c, d, [op]) == Push(c, d, op)
  {
    hide Push;
    assert [op][1..] == [];
  }

  lemma {:induction false} SentPayload(c: Crypto, st: SendSt, op: Op)
    requires op.Send? && Running(st) && OutputLengths(c)
    ensures var o := Do(c, st, op);
      Running(o.st) && Flat(Sent(o)) == if o.err.None? then op.payload else []
  {
    hide Do, OutputLengths, Running, Bound, SaltOf;
    StepFacts(c, st, op);
    var o := Do(c, st, op);
    if o.err.None? {
      assert Sent(o)[..0] == [];
    }
  }

  // ---- the connection object ----

  class Stream {
    const sess: Session
    var readBuf: Bytes

    constructor (sess: Session)
      ensures this.sess == sess && readBuf == []
    {
      this.sess := sess;
      readBuf := [];
    }

    /** At most n bytes: from the buffer if it holds any, else from the next payload. */
    method Read(n: nat, alertOk: bool) returns (out: Bytes, r: Option<Error>)
      modifies this`readBuf, sess`recvKey, sess`recvSalt, sess`recvCounter, sess`recvHave, sess`recvEpoch, sess.conn
      ensures n == 0 || old(readBuf) != [] ==>
        && r.None? && |out| == (if n < |old(readBuf)| then n else |old(readBuf)|) && old(readBuf) == out + readBuf
        && sess.Receiver() == old(sess.Receiver()) && unchanged(sess.conn)
      ensures n > 0 && old(readBuf) == [] && sess.closed ==>
        && r == Some(SessionClosed) && out == [] && readBuf == []
        && sess.Receiver() == old(sess.Receiver()) && unchanged(sess.conn)
      ensures n > 0 && old(readBuf) == [] && !sess.closed ==>
        var (o, rest) := RecvS(sess.c, old(sess.Receiver()), old(sess.conn.inbox));
        && sess.Receiver() == o.st && sess.conn.inbox == rest
        && sess.conn.outbox == old(sess.conn.outbox) +
             (if o.alert.Some? && alertOk
              then Envelope(Frame(FRAME_ALERT, EncodeAlert(Alert(o.alert.value, [])))) else [])
        && (match o.outcome
            case Delivered(rec) =>
              r.None? && |out| == (if n < |rec.payload| then n else |rec.payload|) && rec.payload == out + readBuf
            case Failed(e) => r == Some(e) && out == [] && readBuf == []
            case Waiting => r == Some(StreamEnded) && out == [] && readBuf == [])
    {
      hide RecvS, Envelope, EncodeAlert;
      if n == 0 {
        return [], None;
      }
      if |readBuf| == 0 {
        var o := sess.Recv(alertOk);
        match o {
          case Failed(e) => return [], Some(e);
          case Waiting => return [], Some(StreamEnded);
          case Delivered(rec) => readBuf := rec.payload;
        }
      }
      var m := if n < |readBuf| then n else |readBuf|;
      out := readBuf[..m];
      readBuf := readBuf[m..];
      return out, None;
    }

    method Write(p: Bytes, env: Env) returns (total: nat, e: Option<Error>)
      modifies sess`sendKey, sess`sendSalt, sess`sendCounter, sess`sendEpoch, sess`sendBytes, sess`sendBase,
               sess.conn`outbox
      ensures sess.closed ==>
        && total == 0 && e == (if p == [] then None else Some(SessionClosed))
        && sess.Sender() == old(sess.Sender()) && sess.conn.outbox == old(sess.conn.outbox)
      ensures !sess.closed ==>
        var w := WriteS(sess.c, old(sess.Sender()), p, env, 0);
        && sess.Sender() == w.st && total == w.total && e == w.err
        && sess.conn.outbox == old(sess.conn.outbox) + Envelopes(w.frames)
    {
      hide SendS, Envelopes;
      total, e := 0, None;
      var left, i := p, 0;
      ghost var goal := WriteS(sess.c, sess.Sender(), p, env, 0);
      ghost var done: seq<Frame> := [];
      assert Envelopes([]) == [] by { NoEnvelopes(); }
      while |left| > 0
        invariant e.None?
        invariant sess.closed ==>
          total == 0 && left == p && sess.Sender() == old(sess.Sender()) && sess.conn.outbox == old(sess.conn.outbox)
        invariant !sess.closed ==>
          var w := WriteS(sess.c, sess.Sender(), left, env, i);
          goal == WriteOut(w.st, done + w.frames, total + w.total, w.err)
        invariant !sess.closed ==> sess.conn.outbox == old(sess.conn.outbox) + Envelopes(done)
        decreases |left|
      {
        var chunk := left;
        if |chunk| > MAX_RECORD {
          chunk := chunk[..MAX_RECORD];
        }
        ghost var o := SendS(sess.c, sess.Sender(), chunk, env(i).0, env(i).1);
        var (now, io) := env(i);
        e := sess.Send(chunk, now, io);
        EnvelopesConcat(done, o.frames);
        SeqAssoc(old(sess.conn.outbox), Envelopes(done), Envelopes(o.frames));
        if e.Some? {
          return;
        }
        total := total + |chunk|;
        left := left[|chunk|..];
        ghost var w := WriteS(sess.c, sess.Sender(), left, env, i + 1);
        FramesAssoc(done, o.frames, w.frames);
        done := done + o.frames;
        i := i + 1;
      }
      assert done + [] == done;
    }
  }

  lemma {:induction false} NoEnvelopes()
    ensures Envelopes([]) == []
  {
  }

  lemma {:induction false} FramesAssoc(a: seq<Frame>, b: seq<Frame>, d: seq<Frame>)
    ensures a + (b + d) == a + b + d
  {
  }

  // ---- every run of both ends ----

  /** One end as a reader: the unread rest of the last payload, and all bytes Read has returned. */
  datatype Reader = Reader(buf: Bytes, read: Bytes)

  datatype Pipe = Pipe(l: State, a: Reader, b: Reader)

  /** A sending operation at one end (each chunk of a Write is one), or a Read of at most n bytes. */
  datatype PipeStep = Op(side: Side, op: SendRuns.Op) | Read(side: Side, n: nat, arrived: nat)

  function Incoming(l: State, side: Side): Direction
  {
    if side == B then l.ab else l.ba
  }

  function ReaderAt(p: Pipe, side: Side): Reader
  {
    if side == A then p.a else p.b
  }

  function WithReader(p: Pipe, side: Side, r: Reader): Pipe
  {
    if side == A then p.(a := r) else p.(b := r)
  }

  function Take(r: Reader, n: nat): Reader
  {
    var m := if n < |r.buf| then n else |r.buf|;
    Reader(r.buf[m..], r.read + r.buf[..m])
  }

  function ReadNext(c: Crypto, p: Pipe, side: Side, n: nat, arrived: nat): Pipe
  {
    var r := ReaderAt(p, side);
    if n == 0 then p
    else if r.buf != [] then WithReader(p, side, Take(r, n))
    else
      var q := p.(l := Next(c, p.l, Recv(side, arrived)));
      var had, has := Incoming(p.l, side).got, Incoming(q.l, side).got;
      if |has| <= |had| then q
      else WithReader(q, side, Take(Reader(has[|had|].payload, r.read), n))
  }

  function PipeNext(c: Crypto, p: Pipe, step: PipeStep): Pipe
  {
    match step
    case Op(side, op) => p.(l := Next(c, p.l, Act(side, op)))
    case Read(side, n, arrived) => ReadNext(c, p, side, n, arrived)
  }

  function PipeRun(c: Crypto, p: Pipe, steps: seq<PipeStep>): Pipe
    decreases |steps|
  {
    if steps == [] then p else PipeRun(c, PipeNext(c, p, steps[0]), steps[1..])
  }

  predicate Accounted(got: seq<Record>, r: Reader)
  {
    Flat(got) == r.read + r.buf
  }

  predicate PipeGood(c: Crypto, p: Pipe)
  {
    Good(c, p.l) && Accounted(p.l.ab.got, p.b) && Accounted(p.l.ba.got, p.a)
  }

  lemma {:induction false} TakeAccounted(got: seq<Record>, r: Reader, n: nat)
    requires Accounted(got, r)
    ensures Accounted(got, Take(r, n))
  {
    hide Flat;
    var m := if n < |r.buf| then n else |r.buf|;
    assert r.read + r.buf[..m] + r.buf[m..] == r.read + r.buf;
  }

  lemma {:induction false} PullAccounted(c: Crypto, d: Direction, arrived: nat, r: Reader)
    requires Accounted(d.got, r) && r.buf == []
    ensures var e := Pull(c, d, arrived).0;
      if |e.got| <= |d.got| then Accounted(e.got, r)
      else Accounted(e.got, Reader(e.got[|d.got|].payload, r.read))
  {
    hide RecvS, Flat;
    var (e, o) := Pull(c, d, arrived);
    FlatConcat(d.got, Opened(o));
    if o.outcome.Delivered? {
      OneFlat(o.outcome.record);
      assert r.read + [] == r.read;
      assert e.got[|d.got|] == o.outcome.record;
    } else {
      assert d.got + [] == d.got;
    }
  }

  lemma {:induction false} OneFlat(r: Record)
    ensures Flat([r]) == r.payload
  {
    assert [r][..0] == [];
  }

  lemma {:induction false} StepAccounted(c: Crypto, p: Pipe, step: PipeStep)
    requires AeadCorrect(c) && PipeGood(c, p)
    ensures PipeGood(c, PipeNext(c, p, step))
  {
    hide Good, AeadCorrect, Accounted, Pull, Take;
    match step
    case Op(side, op) =>
      NextGood(c, p.l, Act(side, op));
    case Read(side, n, arrived) =>
      var r, d := ReaderAt(p, side), Incoming(p.l, side);
      NextGood(c, p.l, Recv(side, arrived));
      if r.buf != [] {
        TakeAccounted(d.got, r, n);
      } else {
        PullAccounted(c, d, arrived, r);
        var e := Pull(c, d, arrived).0;
        OtherKept(c, p.l, side, arrived);
        if |e.got| > |d.got| {
          TakeAccounted(e.got, Reader(e.got[|d.got|].payload, r.read), n);
        }
      }
  }

  /** A Recv leaves what the other end has received alone. */
  lemma {:induction false} OtherKept(c: Crypto, l: State, side: Side, arrived: nat)
    ensures var m := Next(c, l, Recv(side, arrived));
      && Incoming(m, side) == Pull(c, Incoming(l, side), arrived).0
      && (side == A ==> m.ab.got == l.ab.got) && (side == B ==> m.ba.got == l.ba.got)
  {
    hide Pull;
  }

  lemma {:induction false} PipeRunGood(c: Crypto, p: Pipe, steps: seq<PipeStep>)
    requires AeadCorrect(c) && PipeGood(c, p)
    ensures PipeGood(c, PipeRun(c, p, steps))
    decreases |steps|
  {
    hide PipeGood, AeadCorrect, PipeNext;
    if steps != [] {
      StepAccounted(c, p, steps[0]);
      PipeRunGood(c, PipeNext(c, p, steps[0]), steps[1..]);
    }
  }

  /**
   In every run, at both ends, whatever the sizes of the writes and the reads and however the bytes
   arrive: the bytes read are a prefix of the bytes sent, no Read fails, and once the wire and the
   read buffer are empty every byte has been read.
   */
  lemma {:induction false} ReadsArePrefix(c: Crypto, keys: SessionKeys, nowA: int, nowB: int, steps: seq<PipeStep>)
    requires AeadCorrect(c)
    ensures var p := PipeRun(c, Pipe(Established(keys, nowA, nowB), Reader([], []), Reader([], [])), steps);
      && p.b.read <= Flat(p.l.ab.sent) && p.a.read <= Flat(p.l.ba.sent) && p.l.failures == []
      && (p.l.ab.wire == [] && p.b.buf == [] ==> p.b.read == Flat(p.l.ab.sent))
      && (p.l.ba.wire == [] && p.a.buf == [] ==> p.a.read == Flat(p.l.ba.sent))
  {
    hide PipeRun, AeadCorrect, Faithful;
    var start := Pipe(Established(keys, nowA, nowB), Reader([], []), Reader([], []));
    EstablishedGood(c, keys, nowA, nowB);
    PipeRunGood(c, start, steps);
    var p := PipeRun(c, start, steps);
    PrefixRead(c, p.l.ab, p.b);
    PrefixRead(c, p.l.ba, p.a);
  }

  lemma {:induction false} PrefixRead(c: Crypto, d: Direction, r: Reader)
    requires Faithful(c, d) && Accounted(d.got, r)
    ensures r.read <= Flat(d.sent)
    ensures d.wire == [] && r.buf == [] ==> r.read == Flat(d.sent)
  {
    hide Faithful, Flat;
    Drained(c, d);
    var rest := d.sent[|d.got|..];
    assert d.sent == d.got + rest;
    FlatConcat(d.got, rest);
    SeqAssoc(r.read, r.buf, Flat(rest));
  }

  // ---- how a Write is cut ----

  /** Into records of 65536 bytes, but for the last, which has the rest. */
  lemma {:induction false} WriteCuts(c: Crypto, st: SendSt, p: Bytes, env: Env, i: nat)
    ensures var ops := WriteOps(c, st, p, env, i);
      && (forall k :: 0 <= k < |ops| ==> ops[k].Send? && 1 <= |ops[k].payload| <= 65536)
      && (forall k :: 0 <= k < |ops| - 1 ==> |ops[k].payload| == 65536)
      && |ops| <= (|p| + 65535) / 65536
      && (WriteS(c, st, p, env, i).err.None? ==> |ops| == (|p| + 65535) / 65536)
    decreases |p|
  {
    hide SendS;
    if p != [] {
      var q := p[|Chunk(p)|..];
      var o := SendS(c, st, Chunk(p), env(i).0, env(i).1);
      if o.err.None? {
        WriteCuts(c, o.st, q, env, i + 1);
        if |p| <= 65536 {
          assert q == [];
        }
      }
    }
  }

  /** Over a working transport, while the epoch lasts, a Write sends all of p, in as few frames as that takes. */
  lemma {:induction false} WriteSucceeds(c: Crypto, st: SendSt, p: Bytes, env: Env, i: nat)
    requires AeadCorrect(c)
    requires forall k: nat :: env(k).1.dataOk && env(k).0 - st.base < 3_600_000_000_000
    requires st.counter + (|p| + 65535) / 65536 < 0x8000_0000 && st.sent + |p| < 107_374_182_400
    ensures var w := WriteS(c, st, p, env, i);
      w.err.None? && w.total == |p| && |w.frames| == (|p| + 65535) / 65536 && w.st.epoch == st.epoch
    decreases |p|
  {
    hide AeadCorrect, SendS, DecodeData;
    if p != [] {
      var chunk := Chunk(p);
      var o := SendS(c, st, chunk, env(i).0, env(i).1);
      SendStaysIff(c, st, chunk, env(i).0, env(i).1);
      SendSucceedsIff(c, st, chunk, env(i).0, env(i).1);
      WriteSucceeds(c, o.st, p[|chunk|..], env, i + 1);
    }
  }

  /** A session begins with a whole epoch: its first hour of Sends, up to the limits, goes out one frame each. */
  lemma {:induction false} FreshSessionLasts(c: Crypto, role: byte, keys: SessionKeys, now: int, ops: seq<SendRuns.Op>)
    requires AeadCorrect(c) && Ordinary(now, ops) && |ops| < 0x8000_0000 && TotalBytes(ops) < 107_374_182_400
    ensures var st := FirstSend(role, keys, now);
      Succeeded(c, st, ops) == |ops| == |SentFrames(c, st, ops)| && LastState(c, st, ops).epoch == 0
  {
    hide AeadCorrect, Ordinary;
    EpochLasts(c, FirstSend(role, keys, now), ops);
  }
}
