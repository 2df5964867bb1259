/** What a Call gets back: every interleaving in which nothing else happens to it returns its answer. */
module Calls {
  import opened ByteStrings
  import opened WireSpec
  import opened WireReader
  import opened Rpc

  function Me(s: State, side: Side): Node
  {
    if side == A then s.a else s.b
  }

  function Other(side: Side): Side
  {
    if side == A then B else A
  }

  /** The state before step j. */
  function StateAt(steps: seq<Step>, j: nat): State
    requires j <= |steps|
  {
    Run(START, steps[..j])
  }

  // ---- the pending table ----

  /** A Call that is registered and has not left. */
  predicate Open(k: Call)
  {
    k.phase in {Registered, Waiting, Leaving}
  }

  /** Ids are given in order, and the table leads from the ids of the open Calls to them, and has no other. */
  predicate Tabled(n: Node)
  {
    && n.reqId == |n.calls| < TWO32
    && (forall i :: 0 <= i < |n.calls| ==> n.calls[i].id == i + 1)
    && (forall id :: id in n.pending ==> 1 <= id <= |n.calls| && n.pending[id] == id - 1 && Open(n.calls[id - 1]))
    && (forall i :: 0 <= i < |n.calls| && Open(n.calls[i]) ==> i + 1 in n.pending)
  }

  /** A Call that stays open, or stays closed, leaves the table right. */
  lemma {:induction false} SetTabled(n: Node, i: nat, k: Call)
    requires Tabled(n) && i < |n.calls| && k.id == n.calls[i].id && (Open(k) <==> Open(n.calls[i]))
    ensures Tabled(SetCall(n, i, k))
  {
    hide Open;
  }

  lemma {:induction false} BeginTabled(n: Node, body: Bytes)
    requires Tabled(n) && |BeginS(n, body).calls| < TWO32
    ensures Tabled(BeginS(n, body))
  {
  }

  lemma {:induction false} RegisterTabled(n: Node, i: nat)
    requires Tabled(n)
    ensures Tabled(RegisterS(n, i))
  {
  }

  lemma {:induction false} ForgetTabled(n: Node, i: nat)
    requires Tabled(n)
    ensures Tabled(ForgetS(n, i))
  {
  }

  lemma {:induction false} WriteTabled(n: Node, i: nat, ok: bool)
    requires Tabled(n)
    ensures Tabled(WriteS(n, i, ok))
  {
    hide Wrap, Tabled;
    if i < |n.calls| && n.calls[i].phase == Registered {
      var k := n.calls[i].(phase := if ok then Waiting else Leaving);
      SetTabled(n, i, k);
      SentTabled(SetCall(n, i, k), WriteS(n, i, ok).out, n.answers);
    }
  }

  /** The table does not depend on what was sent or answered. */
  lemma {:induction false} SentTabled(n: Node, out: seq<Bytes>, answers: seq<Answer>)
    requires Tabled(n)
    ensures Tabled(n.(out := out, answers := answers))
  {
    hide Open;
  }

  lemma {:induction false} LeaveTabled(n: Node, i: nat)
    requires Tabled(n)
    ensures Tabled(TakeS(n, i)) && Tabled(QuitS(n, i))
  {
    hide Tabled;
    if i < |n.calls| && n.calls[i].phase == Waiting {
      SetTabled(n, i, n.calls[i].(phase := Leaving));
      SetTabled(n, i, n.calls[i].(phase := Leaving, result := n.calls[i].chan, chan := None));
    }
  }

  lemma {:induction false} DeliverTabled(n: Node, id: nat, m: Bytes)
    requires Tabled(n)
    ensures Tabled(DeliverS(n, id, m))
  {
    hide Tabled;
    if id in n.pending && n.pending[id] < |n.calls| {
      SetTabled(n, n.pending[id], n.calls[n.pending[id]].(chan := Some(m)));
    }
  }

  lemma {:induction false} MoveTabled(n: Node, peer: Node, step: Step)
    requires Tabled(n) && |Move(n, peer, step).calls| < TWO32
    ensures Tabled(Move(n, peer, step))
  {
    hide Parse, Unwrap, Wrap, U32At, RegisterS, WriteS, TakeS, QuitS, ForgetS, DeliverS, BeginS, Tabled;
    var m := Move(n, peer, step);
    SentTabled(n, m.out, m.answers);
    match step
    case Begin(_, body) => BeginTabled(n, body);
    case Register(_, i) => RegisterTabled(n, i);
    case Write(_, i, ok) => WriteTabled(n, i, ok);
    case Take(_, i) => LeaveTabled(n, i);
    case Quit(_, i) => LeaveTabled(n, i);
    case Forget(_, i) => ForgetTabled(n, i);
    case Dispatch(_, k, _, _) =>
      if k < |peer.out| && Unwrap(peer.out[k]).Some? {
        var u := Unwrap(peer.out[k]).value;
        if Parse(u.body).Parsed? {
          DeliverTabled(n, u.id, Parse(u.body).data);
        }
      }
    case Receive(_, k) =>
      if k < |peer.out| && |peer.out[k]| >= 8 && Parse(peer.out[k][8..]).Parsed? {
        DeliverTabled(n, U32At(peer.out[k], 0), Parse(peer.out[k][8..]).data);
      }
    case Post(_, _) =>
  }

  /**
   In every interleaving, at both ends, the pending table holds exactly the Calls that are registered and
   have not left: no response waits for a Call that is gone, and no entry is left behind.
   */
  lemma {:induction false} TableExact(steps: seq<Step>)
    requires Numbered(Run(START, steps))
    ensures Tabled(Run(START, steps).a) && Tabled(Run(START, steps).b)
    decreases |steps|
  {
    hide Next, Tabled;
    if steps == [] {
      assert Tabled(START.a) by { EmptyTable(); }
    } else {
      var n := |steps| - 1;
      var s := Run(START, steps[..n]);
      NextGrows(s, steps[n]);
      TableExact(steps[..n]);
      NextTabled(s, steps[n]);
    }
  }

  lemma {:induction false} EmptyTable()
    ensures Tabled(START.a) && Tabled(START.b)
  {
  }

  lemma {:induction false} NextTabled(s: State, step: Step)
    requires Tabled(s.a) && Tabled(s.b) && Numbered(Next(s, step))
    ensures Tabled(Next(s, step).a) && Tabled(Next(s, step).b)
  {
    hide Move, Tabled;
    if step.side == A {
      MoveTabled(s.a, s.b, step);
    } else {
      MoveTabled(s.b, s.a, step);
    }
  }

  // ---- leaving a Call alone ----

  /** Frame k is a response with this id. */
  predicate IsAnswer(out: seq<Bytes>, k: nat, id: nat)
  {
    k < |out| && Unwrap(out[k]).Some? && Unwrap(out[k]).value.kind == RESP && Unwrap(out[k]).value.id == id
  }

  /** The step is not one of Call i at this end, and takes no response to it off the wire. */
  predicate Spares(s: State, step: Step, side: Side, i: nat)
  {
    step.side == side ==>
      match step
      case Register(_, j) => j != i
      case Write(_, j, _) => j != i
      case Take(_, j) => j != i
      case Quit(_, j) => j != i
      case Forget(_, j) => j != i
      case Dispatch(_, k, _, _) => !IsAnswer(PeerOf(s, side).out, k, i + 1)
      case Receive(_, k) => !IsAnswer(PeerOf(s, side).out, k, i + 1)
      case _ => true
  }

  /** The Call is as it was, and so is its place in the table. */
  predicate Alike(n: Node, m: Node, i: nat)
  {
    && i < |n.calls| && i < |m.calls| && m.calls[i] == n.calls[i]
    && (i + 1 in m.pending <==> i + 1 in n.pending) && (i + 1 in n.pending ==> m.pending[i + 1] == n.pending[i + 1])
  }

  lemma {:induction false} DeliverAlike(n: Node, id: nat, m: Bytes, i: nat)
    requires Tabled(n) && i < |n.calls| && id != i + 1
    ensures Alike(n, DeliverS(n, id, m), i)
  {
  }

  lemma {:induction false} MoveAlike(s: State, step: Step, side: Side, i: nat)
    requires Tabled(Me(s, side)) && i < |Me(s, side).calls| && Spares(s, step, side, i) && step.side == side
    ensures Alike(Me(s, side), Move(Me(s, side), PeerOf(s, side), step), i)
  {
    hide Parse, Wrap, U32At, DeliverS;
    var (n, peer) := (Me(s, side), PeerOf(s, side));
    match step
    case Dispatch(_, k, _, _) =>
      if k < |peer.out| && Unwrap(peer.out[k]).Some? {
        var u := Unwrap(peer.out[k]).value;
        if u.kind == RESP && Parse(u.body).Parsed? {
          DeliverAlike(n, u.id, Parse(u.body).data, i);
        }
      }
    case Receive(_, k) =>
      if k < |peer.out| && |peer.out[k]| >= 8 && U32At(peer.out[k], 4) == RESP && Parse(peer.out[k][8..]).Parsed? {
        DeliverAlike(n, U32At(peer.out[k], 0), Parse(peer.out[k][8..]).data, i);
      }
    case _ =>
  }

  lemma {:induction false} OutGrows(s: State, step: Step, side: Side)
    ensures Me(s, side).out <= Me(Next(s, step), side).out
  {
    hide Parse, Unwrap, Wrap, U32At;
  }

  ghost predicate SparedBetween(steps: seq<Step>, lo: nat, hi: nat, side: Side, i: nat)
    requires hi <= |steps|
  {
    forall j :: lo <= j < hi ==> Spares(StateAt(steps, j), steps[j], side, i)
  }

  lemma {:induction false} StateNext(steps: seq<Step>, j: nat)
    requires j < |steps|
    ensures StateAt(steps, j + 1) == Next(StateAt(steps, j), steps[j])
  {
    hide Next;
    assert steps[..j + 1][..j] == steps[..j];
  }

  lemma {:induction false} NumberedBefore(steps: seq<Step>, j: nat)
    requires j <= |steps| && Numbered(Run(START, steps))
    ensures Numbered(StateAt(steps, j))
    decreases |steps| - j
  {
    hide Next, Run;
    if j == |steps| {
      assert steps[..j] == steps;
    } else {
      NumberedBefore(steps, j + 1);
      StateNext(steps, j);
      NextGrows(StateAt(steps, j), steps[j]);
    }
  }

  /** Through a stretch of such steps the Call stays as it is, and no frame is lost. */
  lemma {:induction false} Stays(steps: seq<Step>, lo: nat, hi: nat, side: Side, i: nat)
    requires lo <= hi <= |steps| && Numbered(Run(START, steps)) && SparedBetween(steps, lo, hi, side, i)
    requires i < |Me(StateAt(steps, lo), side).calls|
    ensures Alike(Me(StateAt(steps, lo), side), Me(StateAt(steps, hi), side), i)
    decreases hi
  {
    hide Next, Run, Tabled, Spares, StateAt;
    if lo < hi {
      Stays(steps, lo, hi - 1, side, i);
      var s := StateAt(steps, hi - 1);
      NumberedBefore(steps, hi - 1);
      TableAt(steps, hi - 1);
      StateNext(steps, hi - 1);
      assert Spares(s, steps[hi - 1], side, i);
      NextAlike(s, steps[hi - 1], side, i);
    }
  }

  lemma {:induction false} TableAt(steps: seq<Step>, j: nat)
    requires j <= |steps| && Numbered(StateAt(steps, j))
    ensures Tabled(StateAt(steps, j).a) && Tabled(StateAt(steps, j).b)
  {
    hide Run, Tabled;
    TableExact(steps[..j]);
  }

  lemma {:induction false} NextAlike(s: State, step: Step, side: Side, i: nat)
    requires Tabled(Me(s, side)) && i < |Me(s, side).calls| && Spares(s, step, side, i)
    ensures Alike(Me(s, side), Me(Next(s, step), side), i)
  {
    hide Move, Tabled, Spares;
    if step.side == side {
      MoveAlike(s, step, side, i);
    }
  }

  /** A frame once sent stays where it is. */
  lemma {:induction false} FrameStays(steps: seq<Step>, lo: nat, hi: nat, side: Side)
    requires lo <= hi <= |steps|
    ensures Me(StateAt(steps, lo), side).out <= Me(StateAt(steps, hi), side).out
    decreases hi
  {
    hide Next, Run, StateAt;
    if lo < hi {
      FrameStays(steps, lo, hi - 1, side);
      StateNext(steps, hi - 1);
      OutGrows(StateAt(steps, hi - 1), steps[hi - 1], side);
    }
  }

  // ---- the life of a Call ----

  /** A Call as it stands, with its entry in the table. */
  predicate Stands(n: Node, i: nat, k: Call)
  {
    i < |n.calls| && n.calls[i] == k && k.id == i + 1 && (Open(k) ==> k.id in n.pending && n.pending[k.id] == i)
  }

  lemma {:induction false} Begins(n: Node, body: Bytes)
    requires Tabled(n) && |n.calls| + 1 < TWO32
    ensures Stands(BeginS(n, body), |n.calls|, Call(|n.calls| + 1, body, Allocated, None, None))
  {
  }

  lemma {:induction false} Registers(n: Node, i: nat, k: Call)
    requires Stands(n, i, k) && k.phase == Allocated
    ensures Stands(RegisterS(n, i), i, k.(phase := Registered))
  {
  }

  lemma {:induction false} Writes(n: Node, i: nat, k: Call)
    requires Stands(n, i, k) && k.phase == Registered && k.id < TWO32
    ensures Stands(WriteS(n, i, true), i, k.(phase := Waiting))
    ensures WriteS(n, i, true).out == n.out + [Wrap(k.id, REQ, k.body)]
  {
    hide Wrap;
  }

  /** The peer's dispatch loop answers a request with a response of its id. */
  lemma {:induction false} Answers(n: Node, id: nat, body: Bytes, resp: Bytes)
    requires id < TWO32 && Parse(body).Parsed?
    ensures DispatchS(n, Wrap(id, REQ, body), Some(resp), true) ==
      n.(answers := n.answers + [Answer(id, Parse(body).data, resp)], out := n.out + [Wrap(id, RESP, resp)])
  {
    hide Parse, Wrap, Unwrap;
    WrapRoundTrip(id, REQ, body);
  }

  /** Either receive loop hands a response to the Call that waits for it. */
  lemma {:induction false} Delivers(n: Node, i: nat, k: Call, resp: Bytes, a: Option<Bytes>, ok: bool)
    requires Stands(n, i, k) && k.phase == Waiting && k.chan.None? && k.id < TWO32 && Parse(resp).Parsed?
    ensures var f := Wrap(k.id, RESP, resp);
      && Stands(DispatchS(n, f, a, ok), i, k.(chan := Some(Parse(resp).data)))
      && Stands(ReceiveS(n, f), i, k.(chan := Some(Parse(resp).data)))
  {
    hide Parse, Wrap, U32At;
    WrapRoundTrip(k.id, RESP, resp);
  }

  /** A second response, and one to a Call that has left, is dropped. */
  lemma {:induction false} SecondDropped(n: Node, id: nat, resp: Bytes, a: Option<Bytes>, ok: bool)
    requires Tabled(n) && 1 <= id <= |n.calls|
    requires Open(n.calls[id - 1]) ==> n.calls[id - 1].chan.Some?
    ensures DispatchS(n, Wrap(id, RESP, resp), a, ok) == n && ReceiveS(n, Wrap(id, RESP, resp)) == n
  {
    hide Parse, Wrap, U32At;
    WrapRoundTrip(id, RESP, resp);
  }

  lemma {:induction false} Takes(n: Node, i: nat, k: Call)
    requires Stands(n, i, k) && k.phase == Waiting && k.chan.Some?
    ensures Stands(TakeS(n, i), i, k.(phase := Leaving, result := k.chan, chan := None))
  {
  }

  lemma {:induction false} StandsOn(n: Node, m: Node, i: nat, k: Call)
    requires Stands(n, i, k) && Alike(n, m, i)
    ensures Stands(m, i, k)
  {
  }

  /** A Call that ends without a response, and one that could not be written, leave nothing behind. */
  lemma {:induction false} EndsWithout(n: Node, i: nat, k: Call)
    requires Stands(n, i, k) && k.result.None?
    ensures k.phase == Waiting ==> var m := ForgetS(QuitS(n, i), i);
      m.calls == n.calls[i := k.(phase := Gone)] && m.pending == n.pending - {k.id} && m.out == n.out
    ensures k.phase == Registered ==> var m := ForgetS(WriteS(n, i, false), i);
      m.calls == n.calls[i := k.(phase := Gone)] && m.pending == n.pending - {k.id} && m.out == n.out
  {
    hide Wrap;
  }

  // ---- the theorems ----

  /** When a Call's own steps are taken, and those of the peer's answer and its delivery. */
  datatype Points = Points(begin: nat, register: nat, write: nat, answer: nat, deliver: nat, take: nat)

  predicate InOrder(p: Points, n: nat)
  {
    p.begin < p.register < p.write < p.answer < p.deliver < p.take < n
  }

  /** The Call's index, its request's and its response's place on the wire. */
  function CallIndex(steps: seq<Step>, side: Side, p: Points): nat
    requires InOrder(p, |steps|)
  {
    |Me(StateAt(steps, p.begin), side).calls|
  }

  function RequestAt(steps: seq<Step>, side: Side, p: Points): nat
    requires InOrder(p, |steps|)
  {
    |Me(StateAt(steps, p.write), side).out|
  }

  function ResponseAt(steps: seq<Step>, side: Side, p: Points): nat
    requires InOrder(p, |steps|)
  {
    |Me(StateAt(steps, p.answer), Other(side)).out|
  }

  /** Begun, registered, written, answered with resp, delivered by either receive loop, taken. */
  predicate CallMade(steps: seq<Step>, side: Side, p: Points, body: Bytes, resp: Bytes)
    requires InOrder(p, |steps|)
  {
    var i := CallIndex(steps, side, p);
    && steps[p.begin] == Begin(side, body) && steps[p.register] == Register(side, i)
    && steps[p.write] == Write(side, i, true) && steps[p.take] == Take(side, i)
    && steps[p.answer] == Dispatch(Other(side), RequestAt(steps, side, p), Some(resp), true)
    && var (a, s) := (ResponseAt(steps, side, p), steps[p.deliver]);
       s == Receive(side, a) || (s.Dispatch? && s.side == side && s.frame == a)
  }

  /** No other step in between is one of the Call, or delivers to it. */
  ghost predicate Undisturbed(steps: seq<Step>, side: Side, p: Points)
    requires InOrder(p, |steps|)
  {
    var i := CallIndex(steps, side, p);
    && SparedBetween(steps, p.begin + 1, p.register, side, i) && SparedBetween(steps, p.register + 1, p.write, side, i)
    && SparedBetween(steps, p.write + 1, p.deliver, side, i) && SparedBetween(steps, p.deliver + 1, p.take, side, i)
  }

  /**
   In every interleaving at both ends in which a Call is begun, registered, written, answered, delivered
   and taken, with nothing else done to it in between, it returns the message of the answer.
   */
  lemma {:induction false} CallReturnsAnswer(steps: seq<Step>, side: Side, p: Points, body: Bytes, resp: Bytes)
    requires InOrder(p, |steps|) && Numbered(Run(START, steps)) && Parse(body).Parsed? && Parse(resp).Parsed?
    requires CallMade(steps, side, p, body, resp) && Undisturbed(steps, side, p)
    ensures var (n, i) := (Me(StateAt(steps, p.take + 1), side), CallIndex(steps, side, p));
      i < |n.calls| && n.calls[i] == Call(i + 1, body, Leaving, None, Some(Parse(resp).data))
  {
    hide Next, Run, StateAt, Parse, Wrap, Stands, Tabled, SparedBetween, TakeS;
    var i := CallIndex(steps, side, p);
    CallWaits(steps, side, p, body, resp);
    var f := Wrap(i + 1, RESP, resp);
    ResponseSent(steps, side, p, body, resp);
    var k := Call(i + 1, body, Waiting, None, None);
    Carried(steps, p.write + 1, p.deliver, side, i, k);
    Delivered(steps, side, p, body, resp, k);
    var full := k.(chan := Some(Parse(resp).data));
    Carried(steps, p.deliver + 1, p.take, side, i, full);
    StateNext(steps, p.take);
    MyStep(StateAt(steps, p.take), steps[p.take], side);
    Takes(Me(StateAt(steps, p.take), side), i, full);
    StandsIs(Me(StateAt(steps, p.take + 1), side), i, Call(i + 1, body, Leaving, None, Some(Parse(resp).data)));
  }

  lemma {:induction false} StandsIs(n: Node, i: nat, k: Call)
    requires Stands(n, i, k)
    ensures i < |n.calls| && n.calls[i] == k
  {
  }

  lemma {:induction false} MyStep(s: State, step: Step, side: Side)
    requires step.side == side
    ensures Me(Next(s, step), side) == Move(Me(s, side), PeerOf(s, side), step)
    ensures PeerOf(s, side) == Me(s, Other(side))
  {
    hide Move;
  }

  lemma {:induction false} Carried(steps: seq<Step>, lo: nat, hi: nat, side: Side, i: nat, k: Call)
    requires lo <= hi <= |steps| && Numbered(Run(START, steps)) && SparedBetween(steps, lo, hi, side, i)
    requires Stands(Me(StateAt(steps, lo), side), i, k)
    ensures Stands(Me(StateAt(steps, hi), side), i, k)
  {
    hide Run, StateAt, Open, SparedBetween;
    Stays(steps, lo, hi, side, i);
    StandsOn(Me(StateAt(steps, lo), side), Me(StateAt(steps, hi), side), i, k);
  }

  /** Up to the write: the Call waits, and its request is on the wire. */
  lemma {:induction false} CallWaits(steps: seq<Step>, side: Side, p: Points, body: Bytes, resp: Bytes)
    requires InOrder(p, |steps|) && Numbered(Run(START, steps))
    requires CallMade(steps, side, p, body, resp) && Undisturbed(steps, side, p)
    ensures var (n, i) := (Me(StateAt(steps, p.write + 1), side), CallIndex(steps, side, p));
      && i + 1 < TWO32 && Stands(n, i, Call(i + 1, body, Waiting, None, None))
      && RequestAt(steps, side, p) < |n.out| && n.out[RequestAt(steps, side, p)] == Wrap(i + 1, REQ, body)
  {
    hide Next, Run, StateAt, Wrap, Stands, SparedBetween, RegisterS, WriteS, Tabled;
    var (i, s) := (CallIndex(steps, side, p), StateAt(steps, p.begin));
    NumberedBefore(steps, p.begin);
    NumberedBefore(steps, p.begin + 1);
    TableAt(steps, p.begin);
    StateNext(steps, p.begin);
    MyStep(s, steps[p.begin], side);
    Begins(Me(s, side), body);
    var k := Call(i + 1, body, Allocated, None, None);
    Carried(steps, p.begin + 1, p.register, side, i, k);
    StateNext(steps, p.register);
    MyStep(StateAt(steps, p.register), steps[p.register], side);
    Registers(Me(StateAt(steps, p.register), side), i, k);
    Carried(steps, p.register + 1, p.write, side, i, k.(phase := Registered));
    StateNext(steps, p.write);
    MyStep(StateAt(steps, p.write), steps[p.write], side);
    Writes(Me(StateAt(steps, p.write), side), i, k.(phase := Registered));
  }

  /** The peer's answer is on the wire from then on. */
  lemma {:induction false} ResponseSent(steps: seq<Step>, side: Side, p: Points, body: Bytes, resp: Bytes)
    requires InOrder(p, |steps|) && Parse(body).Parsed? && CallMade(steps, side, p, body, resp)
    requires CallIndex(steps, side, p) + 1 < TWO32
    requires RequestAt(steps, side, p) < |Me(StateAt(steps, p.write + 1), side).out|
    requires Me(StateAt(steps, p.write + 1), side).out[RequestAt(steps, side, p)]
               == Wrap(CallIndex(steps, side, p) + 1, REQ, body)
    ensures var (out, a) := (Me(StateAt(steps, p.deliver), Other(side)).out, ResponseAt(steps, side, p));
      a < |out| && out[a] == Wrap(CallIndex(steps, side, p) + 1, RESP, resp)
  {
    hide Next, Run, StateAt, Wrap, Parse, DispatchS;
    var (them, id) := (Other(side), CallIndex(steps, side, p) + 1);
    FrameStays(steps, p.write + 1, p.answer, side);
    StateNext(steps, p.answer);
    var s := StateAt(steps, p.answer);
    MyStep(s, steps[p.answer], them);
    Answers(Me(s, them), id, body, resp);
    FrameStays(steps, p.answer + 1, p.deliver, them);
  }

  lemma {:induction false} Delivered(steps: seq<Step>, side: Side, p: Points, body: Bytes, resp: Bytes, k: Call)
    requires InOrder(p, |steps|) && Parse(resp).Parsed? && CallMade(steps, side, p, body, resp)
    requires var i := CallIndex(steps, side, p);
      && k == Call(i + 1, body, Waiting, None, None) && k.id < TWO32
      && Stands(Me(StateAt(steps, p.deliver), side), i, k)
    requires var (out, a) := (Me(StateAt(steps, p.deliver), Other(side)).out, ResponseAt(steps, side, p));
      a < |out| && out[a] == Wrap(k.id, RESP, resp)
    ensures Stands(Me(StateAt(steps, p.deliver + 1), side), CallIndex(steps, side, p),
                   k.(chan := Some(Parse(resp).data)))
  {
    hide Next, Run, StateAt, Wrap, Parse, DispatchS, ReceiveS, Stands;
    var (s, step) := (StateAt(steps, p.deliver), steps[p.deliver]);
    StateNext(steps, p.deliver);
    MyStep(s, step, side);
    var (a, ok) := if step.Dispatch? then (step.resp, step.ok) else (None, true);
    Delivers(Me(s, side), CallIndex(steps, side, p), k, resp, a, ok);
  }

  // ---- messages without a header ----

  /** The node after it sent one more frame. */
  function WithFrame(s: State, side: Side, f: Bytes): State
  {
    if side == A then s.(a := s.a.(out := s.a.out + [f])) else s.(b := s.b.(out := s.b.out + [f]))
  }

  /**
   A valid message without a header that has a flag is answered with exactly what its handler returned,
   and nothing else changes; one that has none, and is safe to send, is dropped.
   */
  lemma {:induction false} PlainAnswered(s: State, side: Side, k: nat, resp: Bytes)
    requires k < |PeerOf(s, side).out| && Parse(PeerOf(s, side).out[k]).Parsed?
    ensures var d := PeerOf(s, side).out[k];
      && (Flags(Parse(d).data) != 0 ==> Next(s, Dispatch(side, k, Some(resp), true)) == WithFrame(s, side, resp))
      && (Flags(Parse(d).data) == 0 && Plain(d) ==> Next(s, Dispatch(side, k, Some(resp), true)) == s)
  {
    hide Parse, Flags, Unwrap;
    PlainMisreadIffNoFlags(PeerOf(s, side).out[k]);
  }

  /** Without an answer, or when it cannot be written, nothing is sent. */
  lemma {:induction false} PlainUnanswered(s: State, side: Side, k: nat, resp: Option<Bytes>, ok: bool)
    requires k < |PeerOf(s, side).out| && Unwrap(PeerOf(s, side).out[k]).None? && (resp.None? || !ok)
    ensures Next(s, Dispatch(side, k, resp, ok)) == s
  {
    hide Parse, Unwrap;
  }

  /**
   Over any run: a message sent without a header and answered is answered on the wire, in the frame the
   answering end sent next, from then on; and that frame parses to the answer's message.
   */
  lemma {:induction false} PostAnswered(steps: seq<Step>, side: Side, post: nat, answer: nat, m: Bytes, resp: Bytes)
    requires post < answer < |steps| && Parse(m).Parsed? && Flags(Parse(m).data) != 0
    requires steps[post] == Post(side, m)
    requires steps[answer] == Dispatch(Other(side), |Me(StateAt(steps, post), side).out|, Some(resp), true)
    ensures var (a, out) := (|Me(StateAt(steps, answer), Other(side)).out|, Me(Run(START, steps), Other(side)).out);
      a < |out| && out[a] == resp && Parse(out[a]) == Parse(resp)
  {
    hide Next, Run, StateAt, Parse, Flags;
    var (them, s) := (Other(side), StateAt(steps, answer));
    StateNext(steps, post);
    MyStep(StateAt(steps, post), steps[post], side);
    FrameStays(steps, post + 1, answer, side);
    var k := |Me(StateAt(steps, post), side).out|;
    assert PeerOf(s, them) == Me(s, side);
    PlainAnswered(s, them, k, resp);
    StateNext(steps, answer);
    FrameStays(steps, answer + 1, |steps|, them);
    assert StateAt(steps, |steps|) == Run(START, steps) by { WholeRun(steps); }
  }

  lemma {:induction false} WholeRun(steps: seq<Step>)
    ensures StateAt(steps, |steps|) == Run(START, steps)
  {
    assert steps[..|steps|] == steps;
  }
}
