/** Request/response correlation: the header codec, the pending table, and both ends of a connection. */
module Rpc {
  import opened ByteStrings
  import opened WireSpec
  import opened WireReader
  import TreeBuild
  import Trees

  const REQ: nat := 1
  const RESP: nat := 2

  // ---- the correlation header ----

  function Wrap(id: nat, kind: nat, body: Bytes): (r: Bytes)
    requires id < TWO32 && kind < TWO32
    ensures |r| == 8 + |body|
  {
    LE32(id) + LE32(kind) + body
  }

  datatype Correlated = Correlated(id: nat, kind: nat, body: Bytes)

  function Unwrap(d: Bytes): (r: Option<Correlated>)
    ensures r.Some? ==> r.value.id < TWO32 && r.value.kind in {REQ, RESP}
  {
    if |d| < 8 then None
    else
      var kind := U32At(d, 4);
      if kind != REQ && kind != RESP then None else Some(Correlated(U32At(d, 0), kind, d[8..]))
  }

  lemma {:induction false} WrapRoundTrip(id: nat, kind: nat, body: Bytes)
    requires id < TWO32 && kind in {REQ, RESP}
    ensures Unwrap(Wrap(id, kind, body)) == Some(Correlated(id, kind, body))
  {
    hide LE32, U32At;
    var d := Wrap(id, kind, body);
    assert d[0..4] == LE32(id) && d[4..8] == LE32(kind) && d[8..] == body;
    WordRoundTrip(d, 0, id);
    WordRoundTrip(d, 4, kind);
  }

  /**
   A valid message sent without a header is taken for a Call frame exactly when its flag word is
   zero: bytes 4 to 8 are then the version, 1 or 2.
   */
  lemma {:induction false} PlainMisreadIffNoFlags(d: Bytes)
    requires Parse(d).Parsed?
    ensures Unwrap(d).Some? <==> Flags(Parse(d).data) == 0
  {
    var v, f := d[4..6], d[6..8];
    assert v == [d[4], d[5]] && f == [d[6], d[7]];
    TwoBytes(v);
    TwoBytes(f);
    assert Parse(d).data[6..8] == f;
  }

  lemma {:induction false} TwoBytes(s: Bytes)
    requires |s| == 2
    ensures FromLE(s) == s[0] as int + 256 * (s[1] as int)
  {
    assert s[1..] == [s[1]] && s[1..][1..] == [];
    assert FromLE(s[1..]) == s[1] as int + 256 * FromLE(s[1..][1..]);
  }

  /** What is safe to send without a header: it is not taken for a Call frame with a message in it. */
  predicate Plain(d: Bytes)
  {
    Unwrap(d).None? || Parse(Unwrap(d).value.body).Rejected?
  }

  /** The magic as a number: the id read off a message sent without a header. */
  const MAGIC_WORD: nat := 5259610

  /** A second message header begins at byte 8: root offset, size and the word at 20 are magic, version and size. */
  predicate HeaderInside(d: Bytes)
  {
    && |d| >= 8 + HEADER && d[8..12] == MAGIC
    && FromLE(d[12..14]) in {VERSION1, VERSION2} && HEADER <= U32At(d, 20) <= |d| - 8
  }

  /** Which valid messages are safe to send without a header. */
  lemma {:induction false} PlainIff(d: Bytes)
    requires Parse(d).Parsed?
    ensures Plain(d) <==> Flags(Parse(d).data) != 0 || !HeaderInside(d)
  {
    hide U32At, FromLE;
    PlainMisreadIffNoFlags(d);
    if Unwrap(d).Some? {
      BodyParses(d);
    }
  }

  lemma {:induction false} BodyParses(d: Bytes)
    requires |d| >= 8
    ensures Parse(d[8..]).Parsed? <==> HeaderInside(d)
  {
    var b := d[8..];
    if |b| >= HEADER {
      assert b[..4] == d[8..12] && b[4..6] == d[12..14] && b[12..16] == d[20..24];
    }
  }

  lemma {:induction false} MagicWord(d: Bytes, at: nat)
    requires at + 4 <= |d| && d[at..at + 4] == MAGIC
    ensures U32At(d, at) == MAGIC_WORD
  {
    SliceWord(d, at, MAGIC);
  }

  /** In particular any with a flag, and any whose root is not where the magic, as an offset, points. */
  lemma {:induction false} FlaggedOrRooted(d: Bytes)
    requires Parse(d).Parsed? && (Flags(Parse(d).data) != 0 || Root(Parse(d).data) != MAGIC_WORD)
    ensures Plain(d)
  {
    hide FromLE;
    PlainIff(d);
    assert Parse(d).data[8..12] == d[8..12];
    if |d| >= 12 && d[8..12] == MAGIC {
      MagicWord(d, 8);
    }
  }

  /** So everything Build makes. */
  lemma {:induction false} BuiltIsPlain(sch: Trees.Schema, kind: byte, prog: seq<Trees.Write>)
    requires TreeBuild.TopLevel(sch) && Trees.Typed(sch, prog) && |TreeBuild.BuildS(sch, kind, prog)| < TWO31
    ensures Plain(TreeBuild.BuildS(sch, kind, prog))
  {
    hide Trees.Exec, Plain, Trees.WellFormed, FinishS, TreeBuild.StartS, Parse;
    var msg := TreeBuild.BuildS(sch, kind, prog);
    TreeBuild.BuildWraps(sch, kind, prog);
    TreeBuild.WrappedIsParsed(msg, kind, sch.size);
    FlaggedOrRooted(msg);
  }

  // ---- one end of a connection ----

  /** A Call: its id taken, then registered, then waiting, then leaving with or without a response. */
  datatype Phase = Allocated | Registered | Waiting | Leaving | Gone

  /** One Call goroutine: its request, its one-slot channel, and the response it returns. */
  datatype Call = Call(id: nat, body: Bytes, phase: Phase, chan: Option<Bytes>, result: Option<Bytes>)

  /** One invocation of a handler for a request: its id, the message handed over, the answer. */
  datatype Answer = Answer(id: nat, msg: Bytes, resp: Bytes)

  datatype Node = Node(reqId: nat, pending: map<nat, nat>, calls: seq<Call>, out: seq<Bytes>, answers: seq<Answer>)

  function BeginS(n: Node, body: Bytes): Node
  {
    var id := (n.reqId + 1) % TWO32;
    n.(reqId := id, calls := n.calls + [Call(id, body, Allocated, None, None)])
  }

  function SetCall(n: Node, i: nat, k: Call): Node
    requires i < |n.calls|
  {
    n.(calls := n.calls[i := k])
  }

  function RegisterS(n: Node, i: nat): Node
  {
    if i >= |n.calls| || n.calls[i].phase != Allocated then n
    else SetCall(n, i, n.calls[i].(phase := Registered)).(pending := n.pending[n.calls[i].id := i])
  }

  function WriteS(n: Node, i: nat, ok: bool): Node
  {
    if i >= |n.calls| || n.calls[i].phase != Registered then n
    else if !ok then SetCall(n, i, n.calls[i].(phase := Leaving))
    else
      var request := Wrap(n.calls[i].id % TWO32, REQ, n.calls[i].body);
      SetCall(n, i, n.calls[i].(phase := Waiting)).(out := n.out + [request])
  }

  /** The response arrives first, or the context ends first. */
  function TakeS(n: Node, i: nat): Node
  {
    if i >= |n.calls| || n.calls[i].phase != Waiting || n.calls[i].chan.None? then n
    else SetCall(n, i, n.calls[i].(phase := Leaving, result := n.calls[i].chan, chan := None))
  }

  function QuitS(n: Node, i: nat): Node
  {
    if i >= |n.calls| || n.calls[i].phase != Waiting then n
    else SetCall(n, i, n.calls[i].(phase := Leaving))
  }

  function ForgetS(n: Node, i: nat): Node
  {
    if i >= |n.calls| || n.calls[i].phase != Leaving then n
    else SetCall(n, i, n.calls[i].(phase := Gone)).(pending := n.pending - {n.calls[i].id})
  }

  /** Hand a response to whoever is registered under the id, if the one slot is free. */
  function DeliverS(n: Node, id: nat, m: Bytes): Node
  {
    if id !in n.pending || n.pending[id] >= |n.calls| || n.calls[n.pending[id]].chan.Some? then n
    else SetCall(n, n.pending[id], n.calls[n.pending[id]].(chan := Some(m)))
  }

  /** One turn of the dispatch loop; `resp` is what the handler, if there is one, answers. */
  function DispatchS(n: Node, d: Bytes, resp: Option<Bytes>, ok: bool): Node
  {
    match Unwrap(d)
    case Some(Correlated(id, kind, body)) =>
      (match Parse(body)
       case Rejected(_) => n
       case Parsed(m) =>
         if kind == RESP then DeliverS(n, id, m)
         else if resp.None? then n
         else
           var a := n.(answers := n.answers + [Answer(id, m, resp.value)]);
           if ok then a.(out := n.out + [Wrap(id, RESP, resp.value)]) else a)
    case None =>
      if Parse(d).Parsed? && resp.Some? && ok then n.(out := n.out + [resp.value]) else n
  }

  /** The receive loop of a dialled connection: responses are routed, nothing is answered. */
  function ReceiveS(n: Node, d: Bytes): Node
  {
    if |d| >= 8 && U32At(d, 4) == RESP && Parse(d[8..]).Parsed? then DeliverS(n, U32At(d, 0), Parse(d[8..]).data) else n
  }

  // ---- the connection object ----

  class Connection {
    var reqId: nat
    var pending: map<nat, nat>
    var calls: seq<Call>
    var out: seq<Bytes>
    ghost var answers: seq<Answer>

    ghost function View(): Node
      reads this
    {
      Node(reqId, pending, calls, out, answers)
    }

    constructor ()
      ensures View() == Node(0, map[], [], [], [])
    {
      reqId, pending, calls, out, answers := 0, map[], [], [], [];
    }

    method Begin(body: Bytes) returns (i: nat)
      modifies this`reqId, this`calls
      ensures View() == BeginS(old(View()), body) && i == old(|calls|)
    {
      reqId := (reqId + 1) % TWO32;
      i := |calls|;
      calls := calls + [Call(reqId, body, Allocated, None, None)];
    }

    /** Route a response: true when it went into the waiting Call's channel. */
    method Deliver(id: nat, m: Bytes) returns (ok: bool)
      modifies this`calls
      ensures View() == DeliverS(old(View()), id, m)
      ensures ok <==> id in pending && pending[id] < |old(calls)| && old(calls)[pending[id]].chan.None?
      ensures ok ==> |calls| == |old(calls)| && calls[pending[id]].chan == Some(m)
      ensures !ok ==> calls == old(calls)
    {
      ok := id in pending && pending[id] < |calls|;
      if ok {
        var i := pending[id];
        if calls[i].chan.Some? {
          ok := false;
        } else {
          calls := calls[i := calls[i].(chan := Some(m))];
        }
      }
    }

    method Dispatch(d: Bytes, resp: Option<Bytes>, ok: bool)
      modifies this
      ensures View() == DispatchS(old(View()), d, resp, ok)
    {
      hide Parse, U32At;
      var u := Unwrap(d);
      if u.Some? {
        var m := Parse(u.value.body);
        if m.Rejected? {
          return;
        }
        if u.value.kind == RESP {
          var _ := Deliver(u.value.id, m.data);
          return;
        }
        if resp.None? {
          return;
        }
        answers := answers + [Answer(u.value.id, m.data, resp.value)];
        if ok {
          out := out + [Wrap(u.value.id, RESP, resp.value)];
        }
        return;
      }
      var m := Parse(d);
      if m.Parsed? && resp.Some? && ok {
        out := out + [resp.value];
      }
    }
  }

  // ---- both ends ----

  datatype Side = A | B

  datatype State = State(a: Node, b: Node)

  /** Frames stay in the sender's history; a dispatch may take any of them, in any order and again. */
  datatype Step =
      Begin(side: Side, body: Bytes)
    | Register(side: Side, call: nat)
    | Write(side: Side, call: nat, ok: bool)
    | Take(side: Side, call: nat)
    | Quit(side: Side, call: nat)
    | Forget(side: Side, call: nat)
    | Dispatch(side: Side, frame: nat, resp: Option<Bytes>, ok: bool)
    | Receive(side: Side, frame: nat)
    | Post(side: Side, msg: Bytes)

  function Move(n: Node, peer: Node, step: Step): Node
  {
    match step
    case Begin(_, body) => BeginS(n, body)
    case Register(_, i) => RegisterS(n, i)
    case Write(_, i, ok) => WriteS(n, i, ok)
    case Take(_, i) => TakeS(n, i)
    case Quit(_, i) => QuitS(n, i)
    case Forget(_, i) => ForgetS(n, i)
    case Dispatch(_, k, resp, ok) => if k >= |peer.out| then n else DispatchS(n, peer.out[k], resp, ok)
    case Receive(_, k) => if k >= |peer.out| then n else ReceiveS(n, peer.out[k])
    case Post(_, m) => n.(out := n.out + [m])
  }

  function Next(s: State, step: Step): State
  {
    if step.side == A then s.(a := Move(s.a, s.b, step)) else s.(b := Move(s.b, s.a, step))
  }

  function Run(s: State, steps: seq<Step>): State
    decreases |steps|
  {
    if steps == [] then s else Next(Run(s, steps[..|steps| - 1]), steps[|steps| - 1])
  }

  const START: State := State(Node(0, map[], [], [], []), Node(0, map[], [], [], []))

  /** The message a step sends without a header, by Send or in answer to one. */
  function Bare(peer: Node, step: Step): Option<Bytes>
  {
    match step
    case Post(_, m) => Some(m)
    case Dispatch(_, k, resp, _) => if k < |peer.out| && Unwrap(peer.out[k]).None? then resp else None
    case _ => None
  }

  /** Every message sent without a header in the run is one of these. */
  ghost predicate SendsOnly(steps: seq<Step>, allowed: iset<Bytes>)
  {
    forall i :: 0 <= i < |steps| ==> BareIn(Run(START, steps[..i]), steps[i], allowed)
  }

  ghost predicate BareIn(s: State, step: Step, allowed: iset<Bytes>)
  {
    var m := Bare(PeerOf(s, step.side), step);
    m.Some? ==> m.value in allowed
  }

  ghost predicate AllPlain(allowed: iset<Bytes>)
  {
    forall d :: d in allowed ==> Plain(d)
  }

  function PeerOf(s: State, side: Side): Node
  {
    if side == A then s.b else s.a
  }

  /** No request id has come round. */
  predicate Numbered(s: State)
  {
    |s.a.calls| < TWO32 && |s.b.calls| < TWO32
  }

  // ---- the invariant ----

  /** m is the message of an answer a handler at the peer gave to this very request. */
  predicate Answered(id: nat, body: Bytes, peer: Node, m: Bytes)
  {
    exists x :: 0 <= x < |peer.answers| && AnswerTo(id, body, peer.answers[x], m)
  }

  predicate AnswerTo(id: nat, body: Bytes, a: Answer, m: Bytes)
  {
    a.id == id && Parse(body) == Parsed(a.msg) && Parse(a.resp) == Parsed(m)
  }

  predicate CallGood(k: Call, i: nat, peer: Node)
  {
    && k.id == i + 1
    && (k.chan.Some? ==> Answered(k.id, k.body, peer, k.chan.value))
    && (k.result.Some? ==> Answered(k.id, k.body, peer, k.result.value))
  }

  predicate FrameGood(f: Bytes, n: Node)
  {
    || (exists i :: 0 <= i < |n.calls| && IsRequest(f, n.calls[i]))
    || (exists x :: 0 <= x < |n.answers| && IsResponse(f, n.answers[x]))
    || Plain(f)
  }

  predicate IsRequest(f: Bytes, k: Call)
  {
    k.id < TWO32 && f == Wrap(k.id, REQ, k.body)
  }

  predicate IsResponse(f: Bytes, a: Answer)
  {
    a.id < TWO32 && f == Wrap(a.id, RESP, a.resp)
  }

  predicate AnswerGood(a: Answer, peer: Node)
  {
    exists i :: 0 <= i < |peer.calls| && ForCall(a, peer.calls[i])
  }

  predicate ForCall(a: Answer, k: Call)
  {
    a.id == k.id && Parse(k.body) == Parsed(a.msg)
  }

  predicate NodeGood(n: Node, peer: Node)
  {
    && n.reqId == |n.calls| < TWO32
    && (forall id :: id in n.pending ==> n.pending[id] < |n.calls| && n.calls[n.pending[id]].id == id)
    && (forall i :: 0 <= i < |n.calls| ==> CallGood(n.calls[i], i, peer))
    && (forall i :: 0 <= i < |n.out| ==> FrameGood(n.out[i], n))
    && (forall x :: 0 <= x < |n.answers| ==> AnswerGood(n.answers[x], peer))
  }

  predicate Good(s: State)
  {
    NodeGood(s.a, s.b) && NodeGood(s.b, s.a)
  }

  /** n' has all of n's requests and answers. */
  predicate Grown(n: Node, m: Node)
  {
    && |n.calls| <= |m.calls| && n.answers <= m.answers
    && (forall i :: 0 <= i < |n.calls| ==> m.calls[i].id == n.calls[i].id && m.calls[i].body == n.calls[i].body)
  }

  lemma {:induction false} MoveGrows(n: Node, peer: Node, step: Step)
    ensures Grown(n, Move(n, peer, step))
  {
    hide Parse, Unwrap, Wrap, U32At;
  }

  lemma {:induction false} AnsweredKept(id: nat, body: Bytes, peer: Node, later: Node, m: Bytes)
    requires Grown(peer, later) && Answered(id, body, peer, m)
    ensures Answered(id, body, later, m)
  {
    hide AnswerTo;
    var x :| 0 <= x < |peer.answers| && AnswerTo(id, body, peer.answers[x], m);
    assert later.answers[x] == peer.answers[x];
  }

  lemma {:induction false} AnswerKept(a: Answer, peer: Node, later: Node)
    requires Grown(peer, later) && AnswerGood(a, peer)
    ensures AnswerGood(a, later)
  {
    var i :| 0 <= i < |peer.calls| && ForCall(a, peer.calls[i]);
    assert ForCall(a, later.calls[i]);
  }

  lemma {:induction false} FrameKept(f: Bytes, n: Node, later: Node)
    requires Grown(n, later) && FrameGood(f, n)
    ensures FrameGood(f, later)
  {
    hide Wrap, Plain;
    if i :| 0 <= i < |n.calls| && IsRequest(f, n.calls[i]) {
      assert IsRequest(f, later.calls[i]);
    } else if x :| 0 <= x < |n.answers| && IsResponse(f, n.answers[x]) {
      assert IsResponse(f, later.answers[x]);
    }
  }

  /** The idle side stays good while its peer grows. */
  lemma {:induction false} PeerGrows(n: Node, peer: Node, later: Node)
    requires NodeGood(n, peer) && Grown(peer, later)
    ensures NodeGood(n, later)
  {
    hide Answered, AnswerGood, FrameGood, Grown;
    forall i | 0 <= i < |n.calls|
      ensures CallGood(n.calls[i], i, later)
    {
      var k := n.calls[i];
      assert CallGood(k, i, peer);
      if k.chan.Some? { AnsweredKept(k.id, k.body, peer, later, k.chan.value); }
      if k.result.Some? { AnsweredKept(k.id, k.body, peer, later, k.result.value); }
    }
    forall x | 0 <= x < |n.answers|
      ensures AnswerGood(n.answers[x], later)
    {
      AnswerKept(n.answers[x], peer, later);
    }
  }

  // ---- what a frame from the peer can be ----

  lemma {:induction false} FrameIsResponse(f: Bytes, n: Node)
    requires FrameGood(f, n) && Unwrap(f).Some? && Unwrap(f).value.kind == RESP
    requires Parse(Unwrap(f).value.body).Parsed?
    ensures exists x :: 0 <= x < |n.answers| && n.answers[x].id == Unwrap(f).value.id
                        && n.answers[x].resp == Unwrap(f).value.body
  {
    hide Wrap, Unwrap, Parse;
    if i :| 0 <= i < |n.calls| && IsRequest(f, n.calls[i]) {
      WrapRoundTrip(n.calls[i].id, REQ, n.calls[i].body);
    } else if x :| 0 <= x < |n.answers| && IsResponse(f, n.answers[x]) {
      WrapRoundTrip(n.answers[x].id, RESP, n.answers[x].resp);
    }
  }

  lemma {:induction false} FrameIsRequest(f: Bytes, n: Node)
    requires FrameGood(f, n) && Unwrap(f).Some? && Unwrap(f).value.kind == REQ
    requires Parse(Unwrap(f).value.body).Parsed?
    ensures exists i :: 0 <= i < |n.calls| && n.calls[i].id == Unwrap(f).value.id
                        && n.calls[i].body == Unwrap(f).value.body
  {
    hide Wrap, Unwrap, Parse;
    if i :| 0 <= i < |n.calls| && IsRequest(f, n.calls[i]) {
      WrapRoundTrip(n.calls[i].id, REQ, n.calls[i].body);
    } else if x :| 0 <= x < |n.answers| && IsResponse(f, n.answers[x]) {
      WrapRoundTrip(n.answers[x].id, RESP, n.answers[x].resp);
    }
  }

  // ---- every step keeps it ----

  lemma {:induction false} SetCallGood(n: Node, peer: Node, i: nat, k: Call)
    requires NodeGood(n, peer) && i < |n.calls| && CallGood(k, i, peer) && k.body == n.calls[i].body
    ensures NodeGood(SetCall(n, i, k), peer)
  {
    hide Answered, AnswerGood, FrameGood;
    var m := SetCall(n, i, k);
    assert CallGood(n.calls[i], i, peer);
    forall j | 0 <= j < |m.out|
      ensures FrameGood(m.out[j], m)
    {
      FrameKept(m.out[j], n, m);
    }
    forall j | 0 <= j < |m.calls|
      ensures CallGood(m.calls[j], j, peer)
    {
      assert CallGood(n.calls[j], j, peer);
    }
  }

  lemma {:induction false} DeliverGood(n: Node, peer: Node, f: Bytes)
    requires NodeGood(n, peer) && FrameGood(f, peer)
    requires Unwrap(f).Some? && Unwrap(f).value.kind == RESP && Parse(Unwrap(f).value.body).Parsed?
    requires forall x :: 0 <= x < |peer.answers| ==> AnswerGood(peer.answers[x], n)
    ensures NodeGood(DeliverS(n, Unwrap(f).value.id, Parse(Unwrap(f).value.body).data), peer)
  {
    hide Unwrap, Parse, FrameGood;
    var u := Unwrap(f).value;
    var m := Parse(u.body).data;
    if u.id in n.pending && n.calls[n.pending[u.id]].chan.None? {
      var i := n.pending[u.id];
      var k := n.calls[i];
      assert CallGood(k, i, peer);
      FrameIsResponse(f, peer);
      var x :| 0 <= x < |peer.answers| && peer.answers[x].id == u.id && peer.answers[x].resp == u.body;
      assert AnswerGood(peer.answers[x], n);
      var j :| 0 <= j < |n.calls| && ForCall(peer.answers[x], n.calls[j]);
      assert CallGood(n.calls[j], j, peer);
      assert AnswerTo(k.id, k.body, peer.answers[x], m);
      SetCallGood(n, peer, i, k.(chan := Some(m)));
    }
  }

  lemma {:induction false} AnswerRequestGood(n: Node, peer: Node, f: Bytes, resp: Bytes, ok: bool)
    requires NodeGood(n, peer) && FrameGood(f, peer)
    requires Unwrap(f).Some? && Unwrap(f).value.kind == REQ && Parse(Unwrap(f).value.body).Parsed?
    ensures NodeGood(DispatchS(n, f, Some(resp), ok), peer)
  {
    hide Unwrap, Parse, FrameGood, CallGood, Wrap;
    var u := Unwrap(f).value;
    var a := Answer(u.id, Parse(u.body).data, resp);
    var m := DispatchS(n, f, Some(resp), ok);
    FrameIsRequest(f, peer);
    var i :| 0 <= i < |peer.calls| && peer.calls[i].id == u.id && peer.calls[i].body == u.body;
    assert ForCall(a, peer.calls[i]);
    assert Grown(n, m);
    forall j | 0 <= j < |m.out|
      ensures FrameGood(m.out[j], m)
    {
      if j < |n.out| {
        FrameKept(m.out[j], n, m);
      } else {
        assert IsResponse(m.out[j], m.answers[|n.answers|]);
        ResponseGood(m.out[j], m, |n.answers|);
      }
    }
  }

  lemma {:induction false} ResponseGood(f: Bytes, n: Node, x: nat)
    requires x < |n.answers| && IsResponse(f, n.answers[x])
    ensures FrameGood(f, n)
  {
    hide IsResponse;
  }

  lemma {:induction false} RequestGood(f: Bytes, n: Node, i: nat)
    requires i < |n.calls| && IsRequest(f, n.calls[i])
    ensures FrameGood(f, n)
  {
    hide IsRequest;
  }

  /** Adding a frame that is explained. */
  lemma {:induction false} PostGood(n: Node, peer: Node, f: Bytes)
    requires NodeGood(n, peer) && FrameGood(f, n)
    ensures NodeGood(n.(out := n.out + [f]), peer)
  {
    hide CallGood, AnswerGood;
    var m := n.(out := n.out + [f]);
    forall j | 0 <= j < |m.out|
      ensures FrameGood(m.out[j], m)
    {
      FrameKept(if j < |n.out| then n.out[j] else f, n, m);
    }
  }

  lemma {:induction false} BeginGood(n: Node, peer: Node, body: Bytes)
    requires NodeGood(n, peer) && |n.calls| + 1 < TWO32
    ensures NodeGood(BeginS(n, body), peer)
  {
    hide Answered, AnswerGood, FrameGood;
    var m := BeginS(n, body);
    forall j | 0 <= j < |m.out|
      ensures FrameGood(m.out[j], m)
    {
      FrameKept(m.out[j], n, m);
    }
    forall j | 0 <= j < |m.calls|
      ensures CallGood(m.calls[j], j, peer)
    {
      if j < |n.calls| {
        assert CallGood(n.calls[j], j, peer);
      }
    }
  }

  lemma {:induction false} WriteGood(n: Node, peer: Node, i: nat, ok: bool)
    requires NodeGood(n, peer)
    ensures NodeGood(WriteS(n, i, ok), peer)
  {
    hide Answered, AnswerGood, FrameGood, Wrap;
    if i < |n.calls| && n.calls[i].phase == Registered {
      var k := n.calls[i].(phase := if ok then Waiting else Leaving);
      assert CallGood(n.calls[i], i, peer);
      SetCallGood(n, peer, i, k);
      if ok {
        var m := SetCall(n, i, k);
        var f := Wrap(k.id, REQ, k.body);
        assert IsRequest(f, m.calls[i]);
        RequestGood(f, m, i);
        PostGood(m, peer, f);
      }
    }
  }

  /** Steps that only move a Call through its phases. */
  lemma {:induction false} PhaseGood(n: Node, peer: Node, i: nat)
    requires NodeGood(n, peer)
    ensures NodeGood(RegisterS(n, i), peer) && NodeGood(TakeS(n, i), peer)
    ensures NodeGood(QuitS(n, i), peer) && NodeGood(ForgetS(n, i), peer)
  {
    hide Answered, AnswerGood, FrameGood;
    if i < |n.calls| {
      var k := n.calls[i];
      assert CallGood(k, i, peer);
      SetCallGood(n, peer, i, k.(phase := Registered));
      SetCallGood(n, peer, i, k.(phase := Leaving));
      SetCallGood(n, peer, i, k.(phase := Gone));
      SetCallGood(n, peer, i, k.(phase := Leaving, result := k.chan, chan := None));
      var r := SetCall(n, i, k.(phase := Registered));
      PendingGood(r, peer, r.pending[k.id := i]);
      var g := SetCall(n, i, k.(phase := Gone));
      PendingGood(g, peer, g.pending - {k.id});
    }
  }

  lemma {:induction false} PendingGood(n: Node, peer: Node, pending: map<nat, nat>)
    requires NodeGood(n, peer)
    requires forall id :: id in pending ==> pending[id] < |n.calls| && n.calls[pending[id]].id == id
    ensures NodeGood(n.(pending := pending), peer)
  {
    hide CallGood, AnswerGood;
    var m := n.(pending := pending);
    forall j | 0 <= j < |m.out|
      ensures FrameGood(m.out[j], m)
    {
      FrameKept(m.out[j], n, m);
    }
  }

  lemma {:induction false} DispatchGood(n: Node, peer: Node, f: Bytes, resp: Option<Bytes>, ok: bool)
    requires NodeGood(n, peer) && NodeGood(peer, n) && FrameGood(f, peer)
    requires Unwrap(f).None? && resp.Some? ==> Plain(resp.value)
    ensures NodeGood(DispatchS(n, f, resp, ok), peer)
  {
    hide Unwrap, Parse, CallGood, AnswerGood, Wrap, Plain, DeliverS;
    var u := Unwrap(f);
    if u.Some? && Parse(u.value.body).Parsed? {
      if u.value.kind == RESP {
        DeliverGood(n, peer, f);
      } else if resp.Some? {
        AnswerRequestGood(n, peer, f, resp.value, ok);
      }
    } else if u.None? && resp.Some? {
      PostGood(n, peer, resp.value);
    }
  }

  lemma {:induction false} ReceiveGood(n: Node, peer: Node, f: Bytes)
    requires NodeGood(n, peer) && NodeGood(peer, n) && FrameGood(f, peer)
    ensures NodeGood(ReceiveS(n, f), peer)
  {
    hide Parse, CallGood, AnswerGood, Wrap, Plain, DeliverS, FrameGood, U32At;
    if |f| >= 8 && U32At(f, 4) == RESP && Parse(f[8..]).Parsed? {
      DeliverGood(n, peer, f);
    }
  }

  lemma {:induction false} MoveGood(n: Node, peer: Node, step: Step)
    requires NodeGood(n, peer) && NodeGood(peer, n) && |Move(n, peer, step).calls| < TWO32
    requires Bare(peer, step).Some? ==> Plain(Bare(peer, step).value)
    ensures NodeGood(Move(n, peer, step), peer)
  {
    hide CallGood, AnswerGood, FrameGood, Plain, RegisterS, WriteS, TakeS, QuitS, ForgetS, DispatchS, ReceiveS;
    match step
    case Begin(_, body) => BeginGood(n, peer, body);
    case Register(_, i) => PhaseGood(n, peer, i);
    case Write(_, i, ok) => WriteGood(n, peer, i, ok);
    case Take(_, i) => PhaseGood(n, peer, i);
    case Quit(_, i) => PhaseGood(n, peer, i);
    case Forget(_, i) => PhaseGood(n, peer, i);
    case Dispatch(_, k, resp, ok) =>
      if k < |peer.out| {
        DispatchGood(n, peer, peer.out[k], resp, ok);
      }
    case Receive(_, k) =>
      if k < |peer.out| {
        ReceiveGood(n, peer, peer.out[k]);
      }
    case Post(_, m) => PlainGood(n, m); PostGood(n, peer, m);
  }

  lemma {:induction false} PlainGood(n: Node, f: Bytes)
    requires Plain(f)
    ensures FrameGood(f, n)
  {
    hide Plain;
  }

  lemma {:induction false} NextGood(s: State, step: Step, allowed: iset<Bytes>)
    requires Good(s) && BareIn(s, step, allowed) && AllPlain(allowed)
    requires |Next(s, step).a.calls| < TWO32 && |Next(s, step).b.calls| < TWO32
    ensures Good(Next(s, step))
  {
    hide NodeGood, Move, Grown, Bare, Plain;
    if step.side == A {
      MoveGood(s.a, s.b, step);
      MoveGrows(s.a, s.b, step);
      PeerGrows(s.b, s.a, Move(s.a, s.b, step));
    } else {
      MoveGood(s.b, s.a, step);
      MoveGrows(s.b, s.a, step);
      PeerGrows(s.a, s.b, Move(s.b, s.a, step));
    }
  }

  lemma {:induction false} RunGood(steps: seq<Step>, allowed: iset<Bytes>)
    requires SendsOnly(steps, allowed) && AllPlain(allowed) && Numbered(Run(START, steps))
    ensures Good(Run(START, steps))
    decreases |steps|
  {
    hide Good, Next, BareIn, AllPlain;
    if steps == [] {
      StartGood();
    } else {
      var n := |steps| - 1;
      var s := Run(START, steps[..n]);
      NextGrows(s, steps[n]);
      SendsPrefix(steps, allowed, n);
      RunGood(steps[..n], allowed);
      NextGood(s, steps[n], allowed);
    }
  }

  lemma {:induction false} SendsPrefix(steps: seq<Step>, allowed: iset<Bytes>, n: nat)
    requires SendsOnly(steps, allowed) && n < |steps|
    ensures SendsOnly(steps[..n], allowed) && BareIn(Run(START, steps[..n]), steps[n], allowed)
  {
    hide Run, BareIn;
    forall i | 0 <= i < n ensures BareIn(Run(START, steps[..n][..i]), steps[..n][i], allowed)
    {
      assert steps[..n][..i] == steps[..i];
    }
  }

  lemma {:induction false} StartGood()
    ensures Good(START)
  {
  }

  lemma {:induction false} NextGrows(s: State, step: Step)
    ensures |s.a.calls| <= |Next(s, step).a.calls| && |s.b.calls| <= |Next(s, step).b.calls|
  {
    hide Move;
    MoveGrows(s.a, s.b, step);
    MoveGrows(s.b, s.a, step);
  }

  // ---- the theorems ----

  /** Every Call that has returned a message got a handler's answer to its own request. */
  predicate OwnAnswers(n: Node, peer: Node)
  {
    forall i :: 0 <= i < |n.calls| && n.calls[i].result.Some? ==>
      Answered(n.calls[i].id, n.calls[i].body, peer, n.calls[i].result.value)
  }

  /** A response with this id changes no Call but the one that has the id. */
  predicate ReachesOne(n: Node, id: nat, m: Bytes)
  {
    && |DeliverS(n, id, m).calls| == |n.calls|
    && (forall i :: 0 <= i < |n.calls| && DeliverS(n, id, m).calls[i] != n.calls[i] ==> n.calls[i].id == id)
    && (forall i, j :: 0 <= i < j < |n.calls| ==> n.calls[i].id != n.calls[j].id)
  }

  /**
   In every interleaving of Calls and dispatch loops at both ends, with frames delayed, reordered or
   repeated at will, fewer than 2^32 Calls a side, and nothing sent without a header that could be taken
   for a Call frame with a message in it: answers never cross, and no response reaches two Calls.
   */
  lemma {:induction false} AnswersNeverCross(steps: seq<Step>, allowed: iset<Bytes>, id: nat, m: Bytes)
    requires SendsOnly(steps, allowed) && AllPlain(allowed) && Numbered(Run(START, steps))
    ensures var s := Run(START, steps);
      OwnAnswers(s.a, s.b) && OwnAnswers(s.b, s.a) && ReachesOne(s.a, id, m) && ReachesOne(s.b, id, m)
  {
    hide Run, Answered, SendsOnly, AllPlain;
    RunGood(steps, allowed);
    var s := Run(START, steps);
    NodeAnswers(s.a, s.b, id, m);
    NodeAnswers(s.b, s.a, id, m);
  }

  lemma {:induction false} NodeAnswers(n: Node, peer: Node, id: nat, m: Bytes)
    requires NodeGood(n, peer)
    ensures OwnAnswers(n, peer) && ReachesOne(n, id, m)
  {
    hide Answered, FrameGood, AnswerGood;
    assert forall i :: 0 <= i < |n.calls| ==> CallGood(n.calls[i], i, peer);
  }

  // ---- and exactly then ----

  predicate Uncrossed(s: State)
  {
    OwnAnswers(s.a, s.b) && OwnAnswers(s.b, s.a)
  }

  function Begins(k: nat): seq<Step>
  {
    seq(k, _ => Begin(A, []))
  }

  function Fresh(k: nat): seq<Call>
  {
    seq(k, i requires 0 <= i < k => Call(i + 1, [], Allocated, None, None))
  }

  lemma {:induction false} Further(steps: seq<Step>, step: Step, allowed: iset<Bytes>)
    requires SendsOnly(steps, allowed) && BareIn(Run(START, steps), step, allowed)
    ensures SendsOnly(steps + [step], allowed) && Run(START, steps + [step]) == Next(Run(START, steps), step)
  {
    hide Next, BareIn;
    var all := steps + [step];
    assert all[..|steps|] == steps;
    forall i | 0 <= i < |all| ensures BareIn(Run(START, all[..i]), all[i], allowed)
    {
      if i < |steps| {
        assert all[..i] == steps[..i];
      }
    }
  }

  lemma {:induction false} ManyCalls(k: nat, allowed: iset<Bytes>)
    requires k < TWO32
    ensures SendsOnly(Begins(k), allowed)
    ensures Run(START, Begins(k)) == State(Node(k, map[], Fresh(k), [], []), START.b)
    decreases k
  {
    hide SendsOnly, Run;
    if k == 0 {
      Nothing(allowed);
      assert Begins(0) == [] && Fresh(0) == [];
    } else {
      ManyCalls(k - 1, allowed);
      Further(Begins(k - 1), Begin(A, []), allowed);
      assert Begins(k) == Begins(k - 1) + [Begin(A, [])];
      assert Fresh(k) == Fresh(k - 1) + [Call(k, [], Allocated, None, None)];
    }
  }

  lemma {:induction false} Nothing(allowed: iset<Bytes>)
    ensures SendsOnly([], allowed) && Run(START, []) == START
  {
  }

  /** One end with its Call number k waiting and the ones before it not yet registered. */
  function Pending(k: nat): Node
    requires 0 < k < TWO32
  {
    Node(k, map[k := k - 1], Fresh(k)[k - 1 := Call(k, [], Waiting, None, None)], [Wrap(k, REQ, [])], [])
  }

  lemma {:induction false} OneWaits(k: nat, allowed: iset<Bytes>) returns (steps: seq<Step>)
    requires 0 < k < TWO32
    ensures SendsOnly(steps, allowed) && Run(START, steps) == State(Pending(k), START.b)
  {
    hide SendsOnly, Run, Wrap;
    ManyCalls(k, allowed);
    steps := Begins(k);
    Further(steps, Register(A, k - 1), allowed);
    steps := steps + [Register(A, k - 1)];
    Further(steps, Write(A, k - 1, true), allowed);
    steps := steps + [Write(A, k - 1, true)];
    assert Fresh(k)[k - 1 := Call(k, [], Registered, None, None)][k - 1 := Call(k, [], Waiting, None, None)] ==
      Fresh(k)[k - 1 := Call(k, [], Waiting, None, None)];
  }

  /** The waiting Call takes what is delivered under its number. */
  lemma {:induction false} TakesDelivered(steps: seq<Step>, allowed: iset<Bytes>, frame: nat, m: Bytes)
    returns (all: seq<Step>)
    requires SendsOnly(steps, allowed)
    requires var s := Run(START, steps);
      && s.a.pending == Pending(MAGIC_WORD).pending && s.a.calls == Pending(MAGIC_WORD).calls
      && frame < |s.b.out| && DispatchS(s.a, s.b.out[frame], None, true) == DeliverS(s.a, MAGIC_WORD, m)
    ensures SendsOnly(all, allowed) && Run(START, all).b == Run(START, steps).b
    ensures var n := Run(START, all).a;
      && |n.calls| == MAGIC_WORD && n.calls[MAGIC_WORD - 1].id == MAGIC_WORD
      && n.calls[MAGIC_WORD - 1].body == [] && n.calls[MAGIC_WORD - 1].result == Some(m)
  {
    hide SendsOnly, Run, Unwrap, DispatchS;
    var d := Dispatch(A, frame, None, true);
    Further(steps, d, allowed);
    all := steps + [d];
    Further(all, Take(A, MAGIC_WORD - 1), allowed);
    all := all + [Take(A, MAGIC_WORD - 1)];
  }

  /** Read as a response, the message goes to a Call no handler has answered. */
  lemma {:induction false} CrossedByResponse(d: Bytes, allowed: iset<Bytes>) returns (steps: seq<Step>)
    requires Parse(d).Parsed? && !Plain(d) && d in allowed && Unwrap(d).value.kind == RESP
    ensures SendsOnly(steps, allowed) && Numbered(Run(START, steps)) && !Uncrossed(Run(START, steps))
  {
    hide SendsOnly, Run, Wrap, Parse;
    steps := OneWaits(MAGIC_WORD, allowed);
    Further(steps, Post(B, d), allowed);
    steps := steps + [Post(B, d)];
    IdIsMagic(d);
    steps := TakesDelivered(steps, allowed, 0, Parse(Unwrap(d).value.body).data);
  }

  lemma {:induction false} IdIsMagic(d: Bytes)
    requires Parse(d).Parsed? && Unwrap(d).Some?
    ensures Unwrap(d).value.id == MAGIC_WORD
  {
    MagicWord(d, 0);
  }

  /** Read as a request, it is answered under the number of a Call that asked something else. */
  lemma {:induction false} CrossedByRequest(d: Bytes, allowed: iset<Bytes>) returns (steps: seq<Step>)
    requires Parse(d).Parsed? && !Plain(d) && d in allowed && Unwrap(d).value.kind == REQ
    ensures SendsOnly(steps, allowed) && Numbered(Run(START, steps)) && !Uncrossed(Run(START, steps))
  {
    hide SendsOnly, Run, Wrap, Parse, Unwrap;
    steps := OneWaits(MAGIC_WORD, allowed);
    Further(steps, Post(A, d), allowed);
    steps := steps + [Post(A, d)];
    IdIsMagic(d);
    Further(steps, Dispatch(B, 1, Some(d), true), allowed);
    steps := steps + [Dispatch(B, 1, Some(d), true)];
    WrapRoundTrip(MAGIC_WORD, RESP, d);
    steps := TakesDelivered(steps, allowed, 0, Parse(d).data);
    EmptyRejected();
  }

  lemma {:induction false} EmptyRejected()
    ensures Parse([]).Rejected?
  {
  }

  /**
   The exact condition on what ends may send without a header: whatever set of valid messages they keep
   to, answers cross in no run if and only if none of them could be taken for a Call frame.
   */
  lemma {:induction false} NeverCrossIff(allowed: iset<Bytes>)
    requires forall d :: d in allowed ==> Parse(d).Parsed?
    ensures AllPlain(allowed) <==>
      forall steps :: SendsOnly(steps, allowed) && Numbered(Run(START, steps)) ==> Uncrossed(Run(START, steps))
  {
    hide SendsOnly, Run, Uncrossed, Plain, Parse, Numbered;
    if AllPlain(allowed) {
      forall steps | SendsOnly(steps, allowed) && Numbered(Run(START, steps)) ensures Uncrossed(Run(START, steps))
      {
        AnswersUncrossed(steps, allowed);
      }
    } else {
      var d :| d in allowed && !Plain(d);
      Crosses(d, allowed);
    }
  }

  lemma {:induction false} AnswersUncrossed(steps: seq<Step>, allowed: iset<Bytes>)
    requires SendsOnly(steps, allowed) && AllPlain(allowed) && Numbered(Run(START, steps))
    ensures Uncrossed(Run(START, steps))
  {
    hide SendsOnly, Run, OwnAnswers, AllPlain;
    AnswersNeverCross(steps, allowed, 0, []);
  }

  lemma {:induction false} Crosses(d: Bytes, allowed: iset<Bytes>)
    requires Parse(d).Parsed? && !Plain(d) && d in allowed
    ensures exists steps :: SendsOnly(steps, allowed) && Numbered(Run(START, steps)) && !Uncrossed(Run(START, steps))
  {
    hide SendsOnly, Run, Uncrossed, Numbered, Parse;
    var steps: seq<Step>;
    if Unwrap(d).value.kind == RESP {
      steps := CrossedByResponse(d, allowed);
    } else {
      steps := CrossedByRequest(d, allowed);
    }
  }

  /** There are such messages, of both versions: a header whose words at 8, 12 and 20 make a second one. */
  function NestedByte(v: byte, i: nat): byte
  {
    if i == 0 || i == 8 then 0x5A
    else if i == 1 || i == 9 then 0x41
    else if i == 2 || i == 10 then 0x50
    else if i == 4 || i == 12 then v
    else if i == 14 then 1
    else if i == 20 then 16
    else 0
  }

  function Nested(version: nat): Bytes
    requires version in {VERSION1, VERSION2}
  {
    seq(65536 + version, i requires 0 <= i => NestedByte(version as byte, i))
  }

  /** Both headers, byte by byte. */
  predicate HasHeaders(d: Bytes, v: byte)
  {
    && |d| >= 8 + HEADER
    && d[0] == 0x5A && d[1] == 0x41 && d[2] == 0x50 && d[3] == 0 && d[4] == v && d[5] == 0 && d[6] == 0 && d[7] == 0
    && d[8] == 0x5A && d[9] == 0x41 && d[10] == 0x50 && d[11] == 0 && d[12] == v && d[13] == 0 && d[14] == 1
    && d[15] == 0 && d[20] == 16 && d[21] == 0 && d[22] == 0 && d[23] == 0
  }

  lemma {:induction false} HeaderWords(d: Bytes, v: byte)
    requires HasHeaders(d, v)
    ensures d[..4] == MAGIC && d[8..12] == MAGIC && FromLE(d[4..6]) == FromLE(d[12..14]) == v && FromLE(d[6..8]) == 0
    ensures U32At(d, 4) == v && U32At(d, 12) == 65536 + v && U32At(d, 20) == 16
  {
    hide FromLE;
    MagicAt(d, 0);
    MagicAt(d, 8);
    TwoBytes(d[4..6]);
    TwoBytes(d[6..8]);
    TwoBytes(d[12..14]);
  }

  lemma {:induction false} MagicAt(d: Bytes, p: nat)
    requires p + 4 <= |d| && d[p] == 0x5A && d[p + 1] == 0x41 && d[p + 2] == 0x50 && d[p + 3] == 0
    ensures d[p..p + 4] == MAGIC
  {
  }

  lemma {:induction false} NestedIsNotPlain(version: nat)
    requires version in {VERSION1, VERSION2}
    ensures var d := Nested(version);
      && Parse(d) == Parsed(d) && !Plain(d)
      && Unwrap(d).value.kind == (if version == VERSION1 then REQ else RESP)
  {
    hide FromLE, U32At;
    var d := Nested(version);
    assert HasHeaders(d, version as byte);
    hide HasHeaders, Nested;
    HeaderWords(d, version as byte);
    assert d[..|d|] == d;
    PlainIff(d);
  }

  /** The run in which such a message, and no other without a header, makes answers cross. */
  lemma {:induction false} CrossingReached(version: nat) returns (steps: seq<Step>)
    requires version in {VERSION1, VERSION2}
    ensures SendsOnly(steps, iset{Nested(version)}) && Numbered(Run(START, steps)) && !Uncrossed(Run(START, steps))
  {
    hide SendsOnly, Run, Uncrossed, Numbered, Parse, Nested, Plain, Unwrap;
    NestedIsNotPlain(version);
    if version == VERSION2 {
      steps := CrossedByResponse(Nested(version), iset{Nested(version)});
    } else {
      steps := CrossedByRequest(Nested(version), iset{Nested(version)});
    }
  }
}
