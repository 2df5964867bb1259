/**
 The reference-counted read buffers: slab and header pools, dispatch loops that fill them, messages that
 carry them to Call goroutines. Every load, store and atomic update of a shared field is a step of its
 own, and a run is any interleaving of steps.
 */
module BufPool {
  import opened ByteStrings

  const SIZES: seq<nat> := [64, 256, 1024, 4096, 16384, 65536]

  /** The smallest class that fits, or -1 when none does. */
  function PickClass(n: nat): (r: int)
    ensures -1 <= r < |SIZES|
    ensures r == -1 <==> forall i :: 0 <= i < |SIZES| ==> SIZES[i] < n
    ensures r >= 0 ==> n <= SIZES[r] && forall i :: 0 <= i < r ==> SIZES[i] < n
  {
    if n <= SIZES[0] then 0
    else if n <= SIZES[1] then 1
    else if n <= SIZES[2] then 2
    else if n <= SIZES[3] then 3
    else if n <= SIZES[4] then 4
    else if n <= SIZES[5] then 5
    else -1
  }

  /**
   A buffer header: count, slab, class, and the number of bytes it was asked for; the dispatch loop filling
   it and the message last attached to it.
   */
  datatype Header = Header(refs: int, slab: Option<nat>, cls: int, need: nat, local: Option<nat>, msg: Option<nat>)

  /**
   A message over a header. `ref` is whether its reference field is set, `counted` whether the dispatch
   loop has counted it in, `visible` whether a Call has it. The rest count the calls made on it: Retains
   that are done, that have found the field set, and that have loaded it again to count it up; Releases
   that have loaded the field, have cleared it too, have counted down.
   */
  datatype Message = Message(h: nat, slab: Option<nat>, ref: bool, counted: bool, visible: bool,
                             retains: nat, tested: nat, open: nat, loaded: nat, cleared: nat, downs: nat)

  /** Where a dispatch loop is in its turn. */
  datatype Phase =
      Filling(h: nat) | Ready(h: nat) | Attached(h: nat, m: nat) | Retained(h: nat, m: nat) | Finishing(h: nat)

  datatype State = State(
    hdrs: seq<Header>,              // every header ever made
    slabs: seq<int>,                // every slab ever made: its class
    hdrPool: multiset<nat>,
    slabPool: multiset<(int, nat)>, // pool index and slab
    phase: map<nat, Phase>,
    freeing: set<nat>,              // counted down to zero, not yet back in the pool
    msgs: seq<Message>,
    home: set<nat>,                 // messages whose header has gone back to the pool
    fault: bool)                    // a Retain has counted up through a nil field

  const START: State := State([], [], multiset{}, multiset{}, map[], {}, [], {}, false)

  // ---- steps ----

  datatype Step =
      GetHeader(d: nat, pooled: Option<nat>, n: nat)
    | GetSlab(d: nat, pooled: Option<nat>)
    | Skip(d: nat)
    | Attach(d: nat)
    | Retain(d: nat)
    | Deliver(d: nat)
    | Undelivered(d: nat)
    | ReleaseLocal(d: nat)
    | TestRetain(m: nat)
    | LoadRetain(m: nat)
    | AddRetain(m: nat)
    | Load(m: nat)
    | Clear(m: nat)
    | CountDown(m: nat)
    | PutSlab(h: nat)
    | PutHeader(h: nat)
    | LoseHeader(h: nat)
    | LoseSlab(c: int, x: nat)

  /** The count moves; at zero the header is this thread's to take apart. */
  function Count(s: State, h: nat, delta: int): State
    requires h < |s.hdrs|
  {
    var r := s.hdrs[h].refs + delta;
    s.(hdrs := s.hdrs[h := s.hdrs[h].(refs := r)],
       freeing := if delta < 0 && r == 0 then s.freeing + {h} else s.freeing)
  }

  function SetMsg(s: State, m: nat, x: Message): State
    requires m < |s.msgs|
  {
    s.(msgs := s.msgs[m := x])
  }

  function GetHeaderS(s: State, d: nat, pooled: Option<nat>, n: nat): State
  {
    if d in s.phase then s
    else
      match pooled
      case Some(h) =>
        if h !in s.hdrPool || h >= |s.hdrs| then s
        else s.(hdrPool := s.hdrPool - multiset{h},
                hdrs := s.hdrs[h := Header(1, None, PickClass(n), n, Some(d), None)],
                phase := s.phase[d := Filling(h)])
      case None =>
        s.(hdrs := s.hdrs + [Header(1, None, PickClass(n), n, Some(d), None)],
           phase := s.phase[d := Filling(|s.hdrs|)])
  }

  /** The slab comes from the header's class pool or is new; over-class buffers are not pooled. */
  function GetSlabS(s: State, d: nat, pooled: Option<nat>): State
  {
    if d !in s.phase || !s.phase[d].Filling? || s.phase[d].h >= |s.hdrs| then s
    else
      var h := s.phase[d].h;
      var c := s.hdrs[h].cls;
      var t := s.(phase := s.phase[d := Ready(h)]);
      if c < 0 then t
      else
        match pooled
        case Some(x) =>
          if (c, x) !in s.slabPool then s
          else t.(slabPool := s.slabPool - multiset{(c, x)}, hdrs := s.hdrs[h := s.hdrs[h].(slab := Some(x))])
        case None =>
          t.(slabs := s.slabs + [c], hdrs := s.hdrs[h := s.hdrs[h].(slab := Some(|s.slabs|))])
  }

  /** attachToMessage: a new message whose reference field is the header. */
  function AttachS(s: State, d: nat): State
  {
    if d !in s.phase || !s.phase[d].Ready? || s.phase[d].h >= |s.hdrs| then s
    else
      var h, m := s.phase[d].h, |s.msgs|;
      s.(phase := s.phase[d := Attached(h, m)], hdrs := s.hdrs[h := s.hdrs[h].(msg := Some(m))],
         msgs := s.msgs + [Message(h, s.hdrs[h].slab, true, false, false, 0, 0, 0, 0, 0, 0)])
  }

  function RetainS(s: State, d: nat): State
  {
    if d !in s.phase || !s.phase[d].Attached? || s.phase[d].m >= |s.msgs| || s.phase[d].h >= |s.hdrs| then s
    else
      var (h, m) := (s.phase[d].h, s.phase[d].m);
      SetMsg(Count(s, h, 1), m, s.msgs[m].(counted := true)).(phase := s.phase[d := Retained(h, m)])
  }

  /** The message goes to the waiting Call, or the dispatch loop begins to release it itself. */
  function HandOverS(s: State, d: nat, delivered: bool): State
  {
    if d !in s.phase || !s.phase[d].Retained? || s.phase[d].m >= |s.msgs| then s
    else
      var (h, m) := (s.phase[d].h, s.phase[d].m);
      var x := s.msgs[m];
      SetMsg(s, m, if delivered then x.(visible := true) else x.(loaded := x.loaded + 1))
        .(phase := s.phase[d := Finishing(h)])
  }

  function ReleaseLocalS(s: State, d: nat): State
  {
    if d !in s.phase || !s.phase[d].Finishing? || s.phase[d].h >= |s.hdrs| then s
    else
      var t := Count(s, s.phase[d].h, -1);
      t.(hdrs := t.hdrs[s.phase[d].h := t.hdrs[s.phase[d].h].(local := None)], phase := s.phase - {d})
  }

  /** Message.Retain: return if the field is nil; load it again, and count up through it. */
  function TestRetainS(s: State, m: nat): State
  {
    if m >= |s.msgs| || !s.msgs[m].visible || !s.msgs[m].ref then s
    else SetMsg(s, m, s.msgs[m].(tested := s.msgs[m].tested + 1))
  }

  function LoadRetainS(s: State, m: nat): State
  {
    if m >= |s.msgs| || s.msgs[m].tested == 0 then s
    else
      var x := s.msgs[m].(tested := s.msgs[m].tested - 1);
      if x.ref then SetMsg(s, m, x.(open := x.open + 1)) else SetMsg(s, m, x).(fault := true)
  }

  function AddRetainS(s: State, m: nat): State
  {
    if m >= |s.msgs| || s.msgs[m].open == 0 || s.msgs[m].h >= |s.hdrs| then s
    else
      var x := s.msgs[m];
      SetMsg(Count(s, x.h, 1), m, x.(open := x.open - 1, retains := x.retains + 1))
  }

  /** Message.Release: load the field (a cleared one ends the call), clear it, count down. */
  function LoadS(s: State, m: nat): State
  {
    if m >= |s.msgs| || !s.msgs[m].visible || !s.msgs[m].ref then s
    else SetMsg(s, m, s.msgs[m].(loaded := s.msgs[m].loaded + 1))
  }

  function ClearS(s: State, m: nat): State
  {
    if m >= |s.msgs| || s.msgs[m].loaded == 0 then s
    else
      var x := s.msgs[m];
      SetMsg(s, m, x.(loaded := x.loaded - 1, cleared := x.cleared + 1, ref := false))
  }

  function CountDownS(s: State, m: nat): State
  {
    if m >= |s.msgs| || s.msgs[m].cleared == 0 || s.msgs[m].h >= |s.hdrs| then s
    else
      var x := s.msgs[m];
      SetMsg(Count(s, x.h, -1), m, x.(cleared := x.cleared - 1, downs := x.downs + 1))
  }

  /** The rest of bufRef.release, by the thread that reached zero: the slab, then the header. */
  function PutSlabS(s: State, h: nat): State
  {
    if h !in s.freeing || h >= |s.hdrs| || s.hdrs[h].slab.None? then s
    else s.(slabPool := s.slabPool + multiset{(s.hdrs[h].cls, s.hdrs[h].slab.value)},
            hdrs := s.hdrs[h := s.hdrs[h].(slab := None)])
  }

  function PutHeaderS(s: State, h: nat): State
  {
    if h !in s.freeing || h >= |s.hdrs| || s.hdrs[h].slab.Some? then s
    else s.(hdrPool := s.hdrPool + multiset{h}, freeing := s.freeing - {h},
            home := if s.hdrs[h].msg.Some? then s.home + {s.hdrs[h].msg.value} else s.home)
  }

  function Next(s: State, step: Step): State
  {
    match step
    case GetHeader(d, p, n) => GetHeaderS(s, d, p, n)
    case GetSlab(d, p) => GetSlabS(s, d, p)
    case Skip(d) =>
      if d !in s.phase || !s.phase[d].Ready? then s else s.(phase := s.phase[d := Finishing(s.phase[d].h)])
    case Attach(d) => AttachS(s, d)
    case Retain(d) => RetainS(s, d)
    case Deliver(d) => HandOverS(s, d, true)
    case Undelivered(d) => HandOverS(s, d, false)
    case ReleaseLocal(d) => ReleaseLocalS(s, d)
    case TestRetain(m) => TestRetainS(s, m)
    case LoadRetain(m) => LoadRetainS(s, m)
    case AddRetain(m) => AddRetainS(s, m)
    case Load(m) => LoadS(s, m)
    case Clear(m) => ClearS(s, m)
    case CountDown(m) => CountDownS(s, m)
    case PutSlab(h) => PutSlabS(s, h)
    case PutHeader(h) => PutHeaderS(s, h)
    case LoseHeader(h) => s.(hdrPool := s.hdrPool - multiset{h})
    case LoseSlab(c, x) => s.(slabPool := s.slabPool - multiset{(c, x)})
  }

  function Run(s: State, steps: seq<Step>): State
    decreases |steps|
  {
    if steps == [] then s else Next(Run(s, steps[..|steps| - 1]), steps[|steps| - 1])
  }

  // ---- who holds what, and what is safe ----

  /** A dispatch loop's local reference, or one of the references that go with a message. */
  datatype Holder = Local(d: nat) | Share(m: nat, j: nat)

  /** A counted message brings one reference, each Retain one more; each countdown takes one away. */
  function Holders(s: State, h: nat): set<Holder>
  {
    (set d | d in s.phase && s.phase[d].h == h :: Local(d)) +
    (set m, j | 0 <= m < |s.msgs| && s.msgs[m].h == h && s.msgs[m].counted &&
                0 <= j <= s.msgs[m].retains && s.msgs[m].downs <= j :: Share(m, j))
  }

  /**
   Each count is the number of holders; a pooled slab is in its class's pool once and on no held header;
   a header that is pooled, once, or being freed has no holder; no Retain has met a nil field.
   */
  predicate Safe(s: State)
  {
    && (forall h :: 0 <= h < |s.hdrs| ==> s.hdrs[h].refs == |Holders(s, h)|)
    && (forall e :: e in s.slabPool ==> s.slabPool[e] == 1 && e.1 < |s.slabs| && s.slabs[e.1] == e.0)
    && (forall e, h :: e in s.slabPool && 0 <= h < |s.hdrs| && Holders(s, h) != {} ==> s.hdrs[h].slab != Some(e.1))
    && (forall h :: h in s.hdrPool ==> s.hdrPool[h] == 1 && Holders(s, h) == {})
    && (forall h :: h in s.freeing ==> Holders(s, h) == {})
    && !s.fault
  }

  function Loads(x: Message): nat
  {
    x.loaded + x.cleared + x.downs
  }

  /**
   Every Release that has loaded the field, and any Retain that has, has a reference of its own; and
   while a Retain is between its test and its load no Release has loaded the field.
   */
  predicate CoveredAt(x: Message)
  {
    Loads(x) + (if x.open > 0 then 1 else 0) <= 1 + x.retains && (x.tested > 0 ==> Loads(x) == 0)
  }

  predicate Covered(s: State)
  {
    forall m :: 0 <= m < |s.msgs| ==> CoveredAt(s.msgs[m])
  }

  /** The condition on callers, over a whole run. */
  predicate AllCovered(steps: seq<Step>)
  {
    forall i :: 0 <= i <= |steps| ==> Covered(Run(START, steps[..i]))
  }

  // ---- the invariant ----

  function Out(x: Message): int
  {
    if x.counted then 1 + x.retains - x.downs else 0
  }

  /** References that go with the attached message. */
  function Shares(s: State, b: Header): int
  {
    if b.msg.Some? && b.msg.value < |s.msgs| then Out(s.msgs[b.msg.value]) else 0
  }

  function Held(s: State, b: Header): int
  {
    (if b.local.Some? then 1 else 0) + Shares(s, b)
  }

  predicate HeaderOk(s: State, h: nat)
  {
    h < |s.hdrs| ==>
      var b := s.hdrs[h];
      && b.refs == Held(s, b)
      && (b.local.Some? ==> b.local.value in s.phase && s.phase[b.local.value].h == h)
      && (b.msg.Some? ==> b.msg.value < |s.msgs| && s.msgs[b.msg.value].h == h)
      && (b.msg.Some? && Held(s, b) > 0 ==> b.slab == s.msgs[b.msg.value].slab)
      && (h in s.hdrPool ==> s.hdrPool[h] == 1 && Held(s, b) == 0 && b.slab.None? && h !in s.freeing)
      && (h in s.freeing ==> Held(s, b) == 0)
      && (b.slab.Some? ==>
            b.slab.value < |s.slabs| && s.slabs[b.slab.value] == b.cls && (Held(s, b) > 0 || h in s.freeing))
  }

  predicate MsgOk(s: State, m: nat)
  {
    m < |s.msgs| ==>
      var x := s.msgs[m];
      && x.h < |s.hdrs| && CoveredAt(x)
      && (x.ref <==> x.cleared == 0 && x.downs == 0)
      && (!x.counted ==> Loads(x) + x.retains + x.open + x.tested == 0 && !x.visible && x.ref)
      && (!x.counted ==> s.hdrs[x.h].msg == Some(m) && s.hdrs[x.h].local.Some?)
      && (s.hdrs[x.h].msg != Some(m) ==> m in s.home)
      && (m in s.home ==> x.counted && Out(x) == 0)
      && (x.counted && Out(x) == 0 && m !in s.home ==> s.hdrs[x.h].local.Some? || x.h in s.freeing)
  }

  predicate PhaseOk(s: State, d: nat)
  {
    d in s.phase ==>
      var p := s.phase[d];
      && p.h < |s.hdrs| && s.hdrs[p.h].local == Some(d)
      && (p.Filling? ==> s.hdrs[p.h].slab.None?)
      && (p.Filling? || p.Ready? ==> s.hdrs[p.h].msg.None?)
      && (p.Attached? || p.Retained? ==> s.hdrs[p.h].msg == Some(p.m) && p.m < |s.msgs|)
      && (p.Attached? ==> !s.msgs[p.m].counted)
      && (p.Retained? ==>
            var x := s.msgs[p.m];
            x.counted && !x.visible && x.ref && Loads(x) + x.retains + x.open + x.tested == 0)
      && (p.Finishing? && s.hdrs[p.h].msg.Some? && s.hdrs[p.h].msg.value < |s.msgs| ==>
            s.msgs[s.hdrs[p.h].msg.value].counted)
  }

  /** A pooled slab is in its own class's pool, once, and on no header. */
  predicate SlabOk(s: State, c: int, x: nat)
  {
    (c, x) in s.slabPool ==>
      && s.slabPool[(c, x)] == 1 && x < |s.slabs| && s.slabs[x] == c
      && (forall h :: 0 <= h < |s.hdrs| ==> s.hdrs[h].slab != Some(x))
  }

  predicate ApartOk(s: State, h: nat, g: nat)
  {
    h < |s.hdrs| && g < |s.hdrs| && h != g && s.hdrs[h].slab.Some? ==> s.hdrs[h].slab != s.hdrs[g].slab
  }

  ghost predicate PartsOk(s: State)
  {
    && (forall h :: HeaderOk(s, h)) && (forall m :: MsgOk(s, m)) && (forall d :: PhaseOk(s, d))
    && (forall h :: h in s.hdrPool || h in s.freeing ==> h < |s.hdrs|)
    && (forall m :: m in s.home ==> m < |s.msgs|)
  }

  ghost predicate SlabsOk(s: State)
  {
    (forall c, x :: SlabOk(s, c, x)) && (forall h, g :: ApartOk(s, h, g))
  }

  ghost predicate Inv(s: State)
  {
    PartsOk(s) && SlabsOk(s) && !s.fault
  }

  // ---- a step touches one header and what belongs to it ----

  ghost predicate Elsewhere(s: State, t: State, h: nat)
  {
    && |s.hdrs| <= |t.hdrs| && (forall g :: 0 <= g < |t.hdrs| && g != h ==> g < |s.hdrs| && t.hdrs[g] == s.hdrs[g])
    && (forall g :: g != h ==> t.hdrPool[g] == s.hdrPool[g] && (g in t.freeing <==> g in s.freeing))
    && (forall g :: g in t.hdrPool || g in t.freeing ==> g < |t.hdrs|)
    && s.slabs <= t.slabs && |s.msgs| <= |t.msgs|
    && (forall m :: 0 <= m < |t.msgs| && t.msgs[m].h != h ==> m < |s.msgs| && t.msgs[m] == s.msgs[m])
    && (forall m :: 0 <= m < |t.msgs| && t.msgs[m].h != h ==> (m in t.home <==> m in s.home))
    && (forall m :: 0 <= m < |s.msgs| ==> t.msgs[m].h == s.msgs[m].h)
    && (forall m :: m in t.home ==> m < |t.msgs|)
    && (forall d :: d in t.phase && t.phase[d].h != h ==> d in s.phase && t.phase[d] == s.phase[d])
    && (forall d :: d in s.phase && s.phase[d].h != h ==> d in t.phase && t.phase[d] == s.phase[d])
  }

  lemma {:induction false} ElsewhereOk(s: State, t: State, h: nat)
    requires PartsOk(s) && Elsewhere(s, t, h) && HeaderOk(t, h)
    requires forall m :: 0 <= m < |t.msgs| && t.msgs[m].h == h ==> MsgOk(t, m)
    requires forall d :: d in t.phase && t.phase[d].h == h ==> PhaseOk(t, d)
    ensures PartsOk(t)
  {
    forall g ensures HeaderOk(t, g)
    {
      assert HeaderOk(s, g);
    }
    forall m ensures MsgOk(t, m)
    {
      assert MsgOk(s, m);
    }
    forall d ensures PhaseOk(t, d)
    {
      assert PhaseOk(s, d);
      if d in s.phase {
        assert HeaderOk(s, s.phase[d].h);
      }
    }
  }

  // ---- slabs: most steps leave them where they are ----

  predicate SameSlabs(s: State, t: State)
  {
    && t.slabPool == s.slabPool && t.slabs == s.slabs && |s.hdrs| <= |t.hdrs|
    && (forall h :: 0 <= h < |t.hdrs| ==> t.hdrs[h].slab == if h < |s.hdrs| then s.hdrs[h].slab else None)
  }

  lemma {:induction false} SlabsKept(s: State, t: State)
    requires SlabsOk(s) && SameSlabs(s, t)
    ensures SlabsOk(t)
  {
    forall c, x ensures SlabOk(t, c, x) { assert SlabOk(s, c, x); }
    forall g, f ensures ApartOk(t, g, f) { assert ApartOk(s, g, f); }
  }

  /** A new slab of the header's class. */
  lemma {:induction false} NewSlab(s: State, h: nat)
    requires PartsOk(s) && SlabsOk(s) && h < |s.hdrs| && s.hdrs[h].slab.None?
    ensures SlabsOk(s.(slabs := s.slabs + [s.hdrs[h].cls], hdrs := s.hdrs[h := s.hdrs[h].(slab := Some(|s.slabs|))]))
  {
    var t := s.(slabs := s.slabs + [s.hdrs[h].cls], hdrs := s.hdrs[h := s.hdrs[h].(slab := Some(|s.slabs|))]);
    forall c, x ensures SlabOk(t, c, x) { assert SlabOk(s, c, x); }
    forall g, f ensures ApartOk(t, g, f) { assert ApartOk(s, g, f) && HeaderOk(s, g) && HeaderOk(s, f); }
  }

  function Refilled(s: State, h: nat, x: nat): State
    requires h < |s.hdrs|
  {
    s.(slabPool := s.slabPool - multiset{(s.hdrs[h].cls, x)}, hdrs := s.hdrs[h := s.hdrs[h].(slab := Some(x))])
  }

  lemma {:induction false} PooledSlab(s: State, h: nat, x: nat)
    requires SlabsOk(s) && h < |s.hdrs| && s.hdrs[h].slab.None? && (s.hdrs[h].cls, x) in s.slabPool
    ensures SlabsOk(Refilled(s, h, x)) && x < |s.slabs| && s.slabs[x] == s.hdrs[h].cls
  {
    var c := s.hdrs[h].cls;
    var t := Refilled(s, h, x);
    assert SlabOk(s, c, x);
    forall b, y ensures SlabOk(t, b, y) { assert SlabOk(s, b, y); }
    forall g, f ensures ApartOk(t, g, f) { assert ApartOk(s, g, f); }
  }

  lemma {:induction false} ReturnedSlab(s: State, h: nat)
    requires PartsOk(s) && SlabsOk(s) && h < |s.hdrs| && s.hdrs[h].slab.Some?
    ensures SlabsOk(s.(slabPool := s.slabPool + multiset{(s.hdrs[h].cls, s.hdrs[h].slab.value)},
                       hdrs := s.hdrs[h := s.hdrs[h].(slab := None)]))
  {
    var c, x := s.hdrs[h].cls, s.hdrs[h].slab.value;
    var t := s.(slabPool := s.slabPool + multiset{(c, x)}, hdrs := s.hdrs[h := s.hdrs[h].(slab := None)]);
    assert HeaderOk(s, h);
    forall b, y: nat ensures SlabOk(t, b, y)
    {
      assert SlabOk(s, b, y);
      forall g: nat | g < |s.hdrs| && g != h ensures y == x ==> s.hdrs[g].slab != Some(y) { assert ApartOk(s, h, g); }
    }
    forall g, f ensures ApartOk(t, g, f) { assert ApartOk(s, g, f); }
  }

  // ---- every step of a covered run keeps the invariant ----

  lemma {:induction false} PooledHeader(s: State, d: nat, h: nat, n: nat)
    requires Inv(s) && d !in s.phase && h in s.hdrPool && h < |s.hdrs|
    ensures Inv(s.(hdrPool := s.hdrPool - multiset{h},
                   hdrs := s.hdrs[h := Header(1, None, PickClass(n), n, Some(d), None)],
                   phase := s.phase[d := Filling(h)]))
  {
    hide SlabsOk, PickClass;
    var t := s.(hdrPool := s.hdrPool - multiset{h},
                hdrs := s.hdrs[h := Header(1, None, PickClass(n), n, Some(d), None)],
                phase := s.phase[d := Filling(h)]);
    assert HeaderOk(s, h);
    forall m | 0 <= m < |t.msgs| && t.msgs[m].h == h ensures MsgOk(t, m) { assert MsgOk(s, m); }
    forall e | e in t.phase && t.phase[e].h == h ensures PhaseOk(t, e) { assert PhaseOk(s, e); }
    ElsewhereOk(s, t, h);
    SlabsKept(s, t);
  }

  lemma {:induction false} NewHeader(s: State, d: nat, n: nat)
    requires Inv(s) && d !in s.phase
    ensures Inv(s.(hdrs := s.hdrs + [Header(1, None, PickClass(n), n, Some(d), None)],
                   phase := s.phase[d := Filling(|s.hdrs|)]))
  {
    hide SlabsOk, PickClass;
    var h := |s.hdrs|;
    var t := s.(hdrs := s.hdrs + [Header(1, None, PickClass(n), n, Some(d), None)],
                phase := s.phase[d := Filling(|s.hdrs|)]);
    forall m | 0 <= m < |t.msgs| ensures t.msgs[m].h != h { assert MsgOk(s, m); }
    forall e | e in t.phase && t.phase[e].h == h ensures PhaseOk(t, e) { assert PhaseOk(s, e); }
    ElsewhereOk(s, t, h);
    SlabsKept(s, t);
  }

  lemma {:induction false} GetHeaderInv(s: State, d: nat, pooled: Option<nat>, n: nat)
    requires Inv(s)
    ensures Inv(GetHeaderS(s, d, pooled, n))
  {
    hide Inv, PickClass;
    if d !in s.phase {
      if pooled.None? {
        NewHeader(s, d, n);
      } else if pooled.value in s.hdrPool && pooled.value < |s.hdrs| {
        PooledHeader(s, d, pooled.value, n);
      }
    }
  }

  lemma {:induction false} SlabSet(s: State, d: nat, slab: Option<nat>, slabs: seq<int>, pool: multiset<(int, nat)>)
    requires PartsOk(s) && d in s.phase && s.phase[d].Filling? && s.slabs <= slabs
    requires s.phase[d].h < |s.hdrs|
    requires slab.Some? ==> slab.value < |slabs| && slabs[slab.value] == s.hdrs[s.phase[d].h].cls
    ensures var h := s.phase[d].h;
      PartsOk(s.(phase := s.phase[d := Ready(h)], hdrs := s.hdrs[h := s.hdrs[h].(slab := slab)],
                 slabs := slabs, slabPool := pool))
  {
    var h := s.phase[d].h;
    var t := s.(phase := s.phase[d := Ready(h)], hdrs := s.hdrs[h := s.hdrs[h].(slab := slab)],
                slabs := slabs, slabPool := pool);
    assert PhaseOk(s, d) && HeaderOk(s, h);
    forall m | 0 <= m < |t.msgs| && t.msgs[m].h == h ensures MsgOk(t, m) { assert MsgOk(s, m); }
    forall e | e in t.phase && t.phase[e].h == h ensures PhaseOk(t, e) { assert PhaseOk(s, e); }
    ElsewhereOk(s, t, h);
  }

  lemma {:induction false} GetSlabInv(s: State, d: nat, pooled: Option<nat>)
    requires Inv(s)
    ensures Inv(GetSlabS(s, d, pooled))
  {
    hide PartsOk, SlabsOk, PickClass;
    var t := GetSlabS(s, d, pooled);
    if t != s {
      var h := s.phase[d].h;
      assert PhaseOk(s, d) && HeaderOk(s, h) by { PartsAt(s, d, h); }
      var u := t.(phase := s.phase);
      if t.slabs != s.slabs {
        NewSlab(s, h);
        SlabsKept(u, t);
      } else if t.hdrs != s.hdrs {
        PooledSlab(s, h, pooled.value);
        SlabsKept(u, t);
      } else {
        SlabsKept(s, t);
        assert s.hdrs[h := s.hdrs[h].(slab := None)] == s.hdrs;
      }
      SlabSet(s, d, t.hdrs[h].slab, t.slabs, t.slabPool);
    }
  }

  lemma {:induction false} PartsAt(s: State, d: nat, h: nat)
    requires Inv(s)
    ensures PhaseOk(s, d) && HeaderOk(s, h)
  {
  }

  lemma {:induction false} SkipInv(s: State, d: nat)
    requires Inv(s)
    ensures Inv(Next(s, Skip(d)))
  {
    hide SlabsOk;
    var t := Next(s, Skip(d));
    if t != s {
      var h := s.phase[d].h;
      assert PhaseOk(s, d) && HeaderOk(s, h);
      forall m | 0 <= m < |t.msgs| && t.msgs[m].h == h ensures MsgOk(t, m) { assert MsgOk(s, m); }
      forall e | e in t.phase && t.phase[e].h == h ensures PhaseOk(t, e) { assert PhaseOk(s, e); }
      ElsewhereOk(s, t, h);
      assert SameSlabs(s, t);
      SlabsKept(s, t);
    }
  }

  lemma {:induction false} AttachInv(s: State, d: nat)
    requires Inv(s)
    ensures Inv(AttachS(s, d))
  {
    hide SlabsOk;
    var t := AttachS(s, d);
    if t != s {
      var h := s.phase[d].h;
      assert PhaseOk(s, d) && HeaderOk(s, h);
      forall m | 0 <= m < |t.msgs| && t.msgs[m].h == h ensures MsgOk(t, m) { assert MsgOk(s, m); }
      forall e | e in t.phase && t.phase[e].h == h ensures PhaseOk(t, e) { assert PhaseOk(s, e); }
      ElsewhereOk(s, t, h);
      assert SameSlabs(s, t);
      SlabsKept(s, t);
    }
  }

  lemma {:induction false} RetainInv(s: State, d: nat)
    requires Inv(s)
    ensures Inv(RetainS(s, d))
  {
    hide SlabsOk;
    var t := RetainS(s, d);
    if t != s {
      var h := s.phase[d].h;
      assert PhaseOk(s, d) && HeaderOk(s, h);
      assert MsgOk(s, s.phase[d].m);
      forall m | 0 <= m < |t.msgs| && t.msgs[m].h == h ensures MsgOk(t, m) { assert MsgOk(s, m); }
      forall e | e in t.phase && t.phase[e].h == h ensures PhaseOk(t, e) { assert PhaseOk(s, e); }
      ElsewhereOk(s, t, h);
      assert SameSlabs(s, t);
      SlabsKept(s, t);
    }
  }

  lemma {:induction false} HandOverInv(s: State, d: nat, delivered: bool)
    requires Inv(s)
    ensures Inv(HandOverS(s, d, delivered))
  {
    hide SlabsOk;
    var t := HandOverS(s, d, delivered);
    if t != s {
      var h := s.phase[d].h;
      assert PhaseOk(s, d) && HeaderOk(s, h);
      assert MsgOk(s, s.phase[d].m);
      forall m | 0 <= m < |t.msgs| && t.msgs[m].h == h ensures MsgOk(t, m) { assert MsgOk(s, m); }
      forall e | e in t.phase && t.phase[e].h == h ensures PhaseOk(t, e) { assert PhaseOk(s, e); }
      ElsewhereOk(s, t, h);
      assert SameSlabs(s, t);
      SlabsKept(s, t);
    }
  }

  lemma {:induction false} ReleaseLocalInv(s: State, d: nat)
    requires Inv(s)
    ensures Inv(ReleaseLocalS(s, d))
  {
    hide SlabsOk;
    var t := ReleaseLocalS(s, d);
    if t != s {
      var h := s.phase[d].h;
      assert PhaseOk(s, d) && HeaderOk(s, h);
      if s.hdrs[h].msg.Some? { assert MsgOk(s, s.hdrs[h].msg.value); }
      forall m | 0 <= m < |t.msgs| && t.msgs[m].h == h ensures MsgOk(t, m) { assert MsgOk(s, m); }
      forall e | e in t.phase ensures t.phase[e].h != h { assert PhaseOk(s, e); }
      ElsewhereOk(s, t, h);
      assert SameSlabs(s, t);
      SlabsKept(s, t);
    }
  }

  /** A call on a message that has references moves on, and with it the count. */
  lemma {:induction false} CallInv(s: State, m: nat, y: Message, delta: int)
    requires Inv(s) && m < |s.msgs| && s.msgs[m].h < |s.hdrs|
    requires var x := s.msgs[m];
      && y.h == x.h && y.slab == x.slab && x.counted && y.counted && y.visible == x.visible
      && (x.visible || Loads(x) + x.open + x.tested > 0) && Out(x) > 0 && Out(y) == Out(x) + delta >= 0
    requires CoveredAt(y) && (y.ref <==> y.cleared == 0 && y.downs == 0)
    ensures Inv(SetMsg(Count(s, s.msgs[m].h, delta), m, y))
  {
    hide SlabsOk, CoveredAt;
    var h := s.msgs[m].h;
    var t := SetMsg(Count(s, h, delta), m, y);
    assert MsgOk(s, m) && HeaderOk(s, h);
    if s.hdrs[h].local.Some? { assert PhaseOk(s, s.hdrs[h].local.value); }
    forall k | 0 <= k < |t.msgs| && t.msgs[k].h == h ensures MsgOk(t, k) { assert MsgOk(s, k); }
    forall e | e in t.phase && t.phase[e].h == h ensures PhaseOk(t, e) { assert PhaseOk(s, e); }
    ElsewhereOk(s, t, h);
    assert SameSlabs(s, t);
    SlabsKept(s, t);
  }

  lemma {:induction false} CountNothing(s: State, h: nat)
    requires h < |s.hdrs|
    ensures Count(s, h, 0) == s
  {
    assert s.hdrs[h := s.hdrs[h]] == s.hdrs;
  }

  lemma {:induction false} TestRetainInv(s: State, m: nat)
    requires Inv(s) && Covered(TestRetainS(s, m))
    ensures Inv(TestRetainS(s, m))
  {
    hide Inv;
    var t := TestRetainS(s, m);
    if t != s {
      InvAt(s, m);
      CallInv(s, m, t.msgs[m], 0);
      CountNothing(s, s.msgs[m].h);
    }
  }

  lemma {:induction false} LoadRetainInv(s: State, m: nat)
    requires Inv(s)
    ensures Inv(LoadRetainS(s, m))
  {
    hide Inv;
    var t := LoadRetainS(s, m);
    if t != s {
      InvAt(s, m);
      CallInv(s, m, t.msgs[m], 0);
      CountNothing(s, s.msgs[m].h);
    }
  }

  lemma {:induction false} AddRetainInv(s: State, m: nat)
    requires Inv(s)
    ensures Inv(AddRetainS(s, m))
  {
    hide Inv;
    var t := AddRetainS(s, m);
    if t != s {
      InvAt(s, m);
      CallInv(s, m, t.msgs[m], 1);
    }
  }

  lemma {:induction false} LoadInv(s: State, m: nat)
    requires Inv(s) && Covered(LoadS(s, m))
    ensures Inv(LoadS(s, m))
  {
    hide Inv;
    var t := LoadS(s, m);
    if t != s {
      InvAt(s, m);
      CallInv(s, m, t.msgs[m], 0);
      CountNothing(s, s.msgs[m].h);
    }
  }

  lemma {:induction false} ClearInv(s: State, m: nat)
    requires Inv(s)
    ensures Inv(ClearS(s, m))
  {
    hide Inv;
    var t := ClearS(s, m);
    if t != s {
      InvAt(s, m);
      CallInv(s, m, t.msgs[m], 0);
      CountNothing(s, s.msgs[m].h);
    }
  }

  lemma {:induction false} CountDownInv(s: State, m: nat)
    requires Inv(s)
    ensures Inv(CountDownS(s, m))
  {
    hide Inv;
    var t := CountDownS(s, m);
    if t != s {
      InvAt(s, m);
      CallInv(s, m, t.msgs[m], -1);
    }
  }

  lemma {:induction false} PutSlabInv(s: State, h0: nat)
    requires Inv(s)
    ensures Inv(PutSlabS(s, h0))
  {
    hide SlabsOk;
    var t := PutSlabS(s, h0);
    if t != s {
      var h := h0;
      assert HeaderOk(s, h);
      ReturnedSlab(s, h);
      forall m | 0 <= m < |t.msgs| && t.msgs[m].h == h ensures MsgOk(t, m) { assert MsgOk(s, m); }
      forall e | e in t.phase ensures t.phase[e].h != h { assert PhaseOk(s, e); }
      ElsewhereOk(s, t, h);
    }
  }

  lemma {:induction false} PutHeaderInv(s: State, h0: nat)
    requires Inv(s)
    ensures Inv(PutHeaderS(s, h0))
  {
    hide SlabsOk;
    var t := PutHeaderS(s, h0);
    if t != s {
      var h := h0;
      assert HeaderOk(s, h);
      if s.hdrs[h].msg.Some? { assert MsgOk(s, s.hdrs[h].msg.value); }
      forall m | 0 <= m < |t.msgs| && t.msgs[m].h == h ensures MsgOk(t, m) { assert MsgOk(s, m); }
      forall e | e in t.phase ensures t.phase[e].h != h { assert PhaseOk(s, e); }
      ElsewhereOk(s, t, h);
      assert SameSlabs(s, t);
      SlabsKept(s, t);
    }
  }

  /** The runtime may drop pooled objects at any time. */
  lemma {:induction false} LoseInv(s: State, h: nat, c: int, x: nat)
    requires Inv(s)
    ensures Inv(Next(s, LoseHeader(h))) && Inv(Next(s, LoseSlab(c, x)))
  {
    var t, u := Next(s, LoseHeader(h)), Next(s, LoseSlab(c, x));
    forall g ensures HeaderOk(t, g) && HeaderOk(u, g) { assert HeaderOk(s, g); }
    forall m ensures MsgOk(t, m) && MsgOk(u, m) { assert MsgOk(s, m); }
    forall d ensures PhaseOk(t, d) && PhaseOk(u, d) { assert PhaseOk(s, d); }
    forall b, y ensures SlabOk(t, b, y) && SlabOk(u, b, y) { assert SlabOk(s, b, y); }
    forall g, f ensures ApartOk(t, g, f) && ApartOk(u, g, f) { assert ApartOk(s, g, f); }
  }

  /** A step that begins a Release or a Retain. */
  predicate Begins(step: Step)
  {
    step.Load? || step.TestRetain?
  }

  lemma {:induction false} NextInv(s: State, step: Step)
    requires Inv(s) && (Begins(step) ==> Covered(Next(s, step)))
    ensures Inv(Next(s, step))
  {
    hide Inv, Covered;
    match step
    case GetHeader(d, p, n) => GetHeaderInv(s, d, p, n);
    case GetSlab(d, p) => GetSlabInv(s, d, p);
    case Skip(d) => SkipInv(s, d);
    case Attach(d) => AttachInv(s, d);
    case Retain(d) => RetainInv(s, d);
    case Deliver(d) => HandOverInv(s, d, true);
    case Undelivered(d) => HandOverInv(s, d, false);
    case ReleaseLocal(d) => ReleaseLocalInv(s, d);
    case TestRetain(m) => TestRetainInv(s, m);
    case LoadRetain(m) => LoadRetainInv(s, m);
    case AddRetain(m) => AddRetainInv(s, m);
    case Load(m) => LoadInv(s, m);
    case Clear(m) => ClearInv(s, m);
    case CountDown(m) => CountDownInv(s, m);
    case PutSlab(h) => PutSlabInv(s, h);
    case PutHeader(h) => PutHeaderInv(s, h);
    case LoseHeader(h) => LoseInv(s, h, 0, 0);
    case LoseSlab(c, x) => LoseInv(s, 0, c, x);
  }

  lemma {:induction false} StartInv()
    ensures Inv(START)
  {
  }

  lemma {:induction false} CoveredInv(steps: seq<Step>)
    requires AllCovered(steps)
    ensures Inv(Run(START, steps))
    decreases |steps|
  {
    hide Inv, Next, Covered;
    StartInv();
    if steps != [] {
      var n := |steps| - 1;
      CoveredPrefix(steps, n);
      CoveredInv(steps[..n]);
      NextInv(Run(START, steps[..n]), steps[n]);
    }
  }

  lemma {:induction false} CoveredPrefix(steps: seq<Step>, n: nat)
    requires AllCovered(steps) && n <= |steps|
    ensures AllCovered(steps[..n]) && Covered(Run(START, steps))
  {
    hide Run, Covered;
    forall i | 0 <= i <= n ensures Covered(Run(START, steps[..n][..i])) { assert steps[..n][..i] == steps[..i]; }
    assert steps[..|steps|] == steps;
  }

  // ---- the invariant means safety ----

  function ShareSet(m: nat, lo: nat, hi: nat): set<Holder>
  {
    set j | 0 <= j < hi && lo <= j :: Share(m, j)
  }

  lemma {:induction false} ShareCount(m: nat, lo: nat, hi: nat)
    ensures |ShareSet(m, lo, hi)| == if lo < hi then hi - lo else 0
    decreases hi
  {
    if lo < hi {
      ShareCount(m, lo, hi - 1);
      assert ShareSet(m, lo, hi) == ShareSet(m, lo, hi - 1) + {Share(m, hi - 1)};
    } else {
      assert ShareSet(m, lo, hi) == {};
    }
  }

  /** Messages that went home, and messages of other headers, hold nothing of this one. */
  lemma {:induction false} HoldersAre(s: State, h: nat)
    requires PartsOk(s) && h < |s.hdrs|
    ensures var b := s.hdrs[h];
      Holders(s, h) == (if b.local.Some? then {Local(b.local.value)} else {}) +
        (if b.msg.Some? && b.msg.value < |s.msgs| && s.msgs[b.msg.value].counted
         then ShareSet(b.msg.value, s.msgs[b.msg.value].downs, s.msgs[b.msg.value].retains + 1) else {})
  {
    var b := s.hdrs[h];
    assert HeaderOk(s, h);
    var rhs := (if b.local.Some? then {Local(b.local.value)} else {}) +
      (if b.msg.Some? && b.msg.value < |s.msgs| && s.msgs[b.msg.value].counted
       then ShareSet(b.msg.value, s.msgs[b.msg.value].downs, s.msgs[b.msg.value].retains + 1) else {});
    forall k | k in Holders(s, h) ensures k in rhs
    {
      match k
      case Local(d) => assert PhaseOk(s, d);
      case Share(m, j) => assert MsgOk(s, m);
    }
    forall k | k in rhs ensures k in Holders(s, h) { }
  }

  lemma {:induction false} HoldersCounted(s: State, h: nat)
    requires PartsOk(s) && h < |s.hdrs|
    ensures |Holders(s, h)| == Held(s, s.hdrs[h]) == s.hdrs[h].refs
  {
    hide Holders;
    HoldersAre(s, h);
    var b := s.hdrs[h];
    assert HeaderOk(s, h);
    if b.msg.Some? {
      var x := s.msgs[b.msg.value];
      assert MsgOk(s, b.msg.value);
      ShareCount(b.msg.value, x.downs, x.retains + 1);
      if b.local.Some? && x.counted {
        assert Local(b.local.value) !in ShareSet(b.msg.value, x.downs, x.retains + 1);
        OneMore(Local(b.local.value), ShareSet(b.msg.value, x.downs, x.retains + 1));
      }
    }
  }

  lemma {:induction false} OneMore(k: Holder, ks: set<Holder>)
    requires k !in ks
    ensures |{k} + ks| == 1 + |ks|
  {
    assert {k} !! ks;
  }

  lemma {:induction false} InvSafe(s: State)
    requires Inv(s)
    ensures Safe(s)
  {
    hide Holders;
    forall h: nat | h < |s.hdrs| ensures s.hdrs[h].refs == |Holders(s, h)| { HoldersCounted(s, h); }
    forall e | e in s.slabPool
      ensures s.slabPool[e] == 1 && e.1 < |s.slabs| && s.slabs[e.1] == e.0
      ensures forall h :: 0 <= h < |s.hdrs| ==> s.hdrs[h].slab != Some(e.1)
    {
      assert SlabOk(s, e.0, e.1);
    }
    forall h | h in s.hdrPool ensures s.hdrPool[h] == 1 && Holders(s, h) == {}
    {
      assert HeaderOk(s, h);
      HoldersCounted(s, h);
    }
    forall h | h in s.freeing ensures Holders(s, h) == {}
    {
      assert HeaderOk(s, h);
      HoldersCounted(s, h);
    }
  }

  /** Safety of every run in which each Release and each Retain under way has a reference of its own. */
  lemma {:induction false} PoolsAreSafe(steps: seq<Step>)
    requires AllCovered(steps)
    ensures Safe(Run(START, steps))
  {
    hide Run, Safe;
    CoveredInv(steps);
    InvSafe(Run(START, steps));
  }

  // ---- the buffers fit ----

  predicate SizedHeader(b: Header)
  {
    b.cls == PickClass(b.need) && (b.slab.Some? ==> b.cls >= 0)
  }

  /** A loop that has its buffer has a slab unless no class fits. */
  predicate SizedPhase(s: State, d: nat)
  {
    d in s.phase && s.phase[d].Ready? && s.phase[d].h < |s.hdrs| ==>
      (s.hdrs[s.phase[d].h].slab.Some? <==> s.hdrs[s.phase[d].h].cls >= 0)
  }

  ghost predicate Sized(s: State)
  {
    (forall h :: 0 <= h < |s.hdrs| ==> SizedHeader(s.hdrs[h])) && forall d :: SizedPhase(s, d)
  }

  /** Headers keep slab, class and need, and no loop comes to have its buffer. */
  predicate Idly(s: State, t: State, d: nat)
  {
    && |t.hdrs| == |s.hdrs|
    && (forall h :: 0 <= h < |s.hdrs| ==>
          t.hdrs[h].slab == s.hdrs[h].slab && t.hdrs[h].cls == s.hdrs[h].cls && t.hdrs[h].need == s.hdrs[h].need)
    && (d in t.phase && t.phase[d].Ready? ==> d in s.phase && s.phase[d] == t.phase[d])
  }

  lemma {:induction false} CountIdle(s: State, h: nat, delta: int, d: nat)
    requires h < |s.hdrs|
    ensures Idly(s, Count(s, h, delta), d)
  {
  }

  lemma {:induction false} RetainIdle(s: State, e: nat, d: nat)
    ensures Idly(s, RetainS(s, e), d)
  {
  }

  lemma {:induction false} ReleaseIdle(s: State, e: nat, d: nat)
    ensures Idly(s, ReleaseLocalS(s, e), d)
  {
  }

  lemma {:induction false} CallsIdle(s: State, m: nat, d: nat)
    ensures Idly(s, AddRetainS(s, m), d) && Idly(s, CountDownS(s, m), d)
  {
    hide Idly, Count;
    if m < |s.msgs| && s.msgs[m].h < |s.hdrs| {
      CountIdle(s, s.msgs[m].h, 1, d);
      CountIdle(s, s.msgs[m].h, -1, d);
      MessageIdle(s, Count(s, s.msgs[m].h, 1), AddRetainS(s, m).msgs, d);
      MessageIdle(s, Count(s, s.msgs[m].h, -1), CountDownS(s, m).msgs, d);
    }
    NothingIdle(s, d);
  }

  lemma {:induction false} MessageIdle(s: State, t: State, msgs: seq<Message>, d: nat)
    requires Idly(s, t, d)
    ensures Idly(s, t.(msgs := msgs), d)
  {
  }

  lemma {:induction false} NothingIdle(s: State, d: nat)
    ensures Idly(s, s, d)
  {
  }

  lemma {:induction false} LoopIdle(s: State, e: nat, d: nat)
    ensures Idly(s, AttachS(s, e), d)
  {
  }

  lemma {:induction false} FieldIdle(s: State, m: nat, d: nat)
    ensures Idly(s, TestRetainS(s, m), d) && Idly(s, LoadRetainS(s, m), d)
    ensures Idly(s, LoadS(s, m), d) && Idly(s, ClearS(s, m), d)
  {
  }

  lemma {:induction false} PutHeaderIdle(s: State, h: nat, d: nat)
    ensures Idly(s, PutHeaderS(s, h), d)
  {
  }

  lemma {:induction false} HandOverIdle(s: State, e: nat, delivered: bool, d: nat)
    ensures Idly(s, HandOverS(s, e, delivered), d)
  {
  }

  lemma {:induction false} StepIdle(s: State, step: Step, d: nat)
    requires !step.GetHeader? && !step.GetSlab? && !step.PutSlab?
    ensures Idly(s, Next(s, step), d)
  {
    hide RetainS, ReleaseLocalS, AddRetainS, CountDownS, AttachS, HandOverS, TestRetainS, LoadRetainS, LoadS, ClearS,
         PutHeaderS;
    match step
    case TestRetain(m) => FieldIdle(s, m, d);
    case LoadRetain(m) => FieldIdle(s, m, d);
    case Load(m) => FieldIdle(s, m, d);
    case Clear(m) => FieldIdle(s, m, d);
    case PutHeader(h) => PutHeaderIdle(s, h, d);
    case Attach(e) => LoopIdle(s, e, d);
    case Deliver(e) => HandOverIdle(s, e, true, d);
    case Undelivered(e) => HandOverIdle(s, e, false, d);
    case Retain(e) => RetainIdle(s, e, d);
    case ReleaseLocal(e) => ReleaseIdle(s, e, d);
    case AddRetain(m) => CallsIdle(s, m, d);
    case CountDown(m) => CallsIdle(s, m, d);
    case _ =>
  }

  lemma {:induction false} HeaderSized(s: State, step: Step, h: nat)
    requires h < |s.hdrs| ==> SizedHeader(s.hdrs[h])
    ensures h < |Next(s, step).hdrs| ==> SizedHeader(Next(s, step).hdrs[h])
  {
    hide PickClass, GetHeaderS, GetSlabS, PutSlabS, AttachS, RetainS, HandOverS, ReleaseLocalS, TestRetainS,
         LoadRetainS, AddRetainS, LoadS, ClearS, CountDownS, PutHeaderS;
    match step
    case GetHeader(d, p, n) => HeaderGot(s, d, p, n, h);
    case GetSlab(d, p) => SlabGot(s, d, p, h);
    case PutSlab(g) => SlabPut(s, g, h);
    case _ => StepIdle(s, step, 0);
  }

  lemma {:induction false} HeaderGot(s: State, d: nat, p: Option<nat>, n: nat, h: nat)
    requires h < |s.hdrs| ==> SizedHeader(s.hdrs[h])
    ensures h < |GetHeaderS(s, d, p, n).hdrs| ==> SizedHeader(GetHeaderS(s, d, p, n).hdrs[h])
  {
    hide PickClass;
  }

  lemma {:induction false} SlabGot(s: State, d: nat, p: Option<nat>, h: nat)
    requires h < |s.hdrs| ==> SizedHeader(s.hdrs[h])
    ensures h < |GetSlabS(s, d, p).hdrs| ==> SizedHeader(GetSlabS(s, d, p).hdrs[h])
  {
    hide PickClass;
  }

  lemma {:induction false} SlabPut(s: State, g: nat, h: nat)
    requires h < |s.hdrs| ==> SizedHeader(s.hdrs[h])
    ensures h < |PutSlabS(s, g).hdrs| ==> SizedHeader(PutSlabS(s, g).hdrs[h])
  {
    hide PickClass;
  }

  lemma {:induction false} PhaseSized(s: State, step: Step, d: nat)
    requires Inv(s) && SizedPhase(s, d)
    ensures SizedPhase(Next(s, step), d)
  {
    hide PickClass, Inv, GetHeaderS, GetSlabS, PutSlabS, AttachS, RetainS, HandOverS, ReleaseLocalS, TestRetainS,
         LoadRetainS, AddRetainS, LoadS, ClearS, CountDownS, PutHeaderS;
    match step
    case GetHeader(e, p, n) => HeaderGotPhase(s, e, p, n, d);
    case GetSlab(e, p) => SlabGotPhase(s, e, p, d);
    case PutSlab(g) => SlabPutPhase(s, g, d);
    case _ => StepIdle(s, step, d);
  }

  lemma {:induction false} HeaderGotPhase(s: State, e: nat, p: Option<nat>, n: nat, d: nat)
    requires Inv(s) && SizedPhase(s, d)
    ensures SizedPhase(GetHeaderS(s, e, p, n), d)
  {
    hide PickClass, Inv;
    if d in s.phase && s.phase[d].Ready? {
      LoopHolds(s, d);
      NotFreeing(s, d);
    }
  }

  lemma {:induction false} SlabGotPhase(s: State, e: nat, p: Option<nat>, d: nat)
    requires Inv(s) && SizedPhase(s, d)
    ensures SizedPhase(GetSlabS(s, e, p), d)
  {
    hide PickClass, Inv;
    if d in s.phase {
      LoopHolds(s, d);
    }
    if e in s.phase {
      LoopHolds(s, e);
    }
  }

  lemma {:induction false} SlabPutPhase(s: State, g: nat, d: nat)
    requires Inv(s) && SizedPhase(s, d)
    ensures SizedPhase(PutSlabS(s, g), d)
  {
    hide PickClass, Inv;
    if d in s.phase && s.phase[d].Ready? {
      NotFreeing(s, d);
    }
  }

  lemma {:induction false} LoopHolds(s: State, d: nat)
    requires Inv(s) && d in s.phase
    ensures s.phase[d].h < |s.hdrs| && s.hdrs[s.phase[d].h].local == Some(d)
    ensures s.phase[d].Filling? ==> s.hdrs[s.phase[d].h].slab.None?
  {
    assert PhaseOk(s, d);
  }

  /** What a loop fills is neither pooled nor being taken apart. */
  lemma {:induction false} NotFreeing(s: State, d: nat)
    requires Inv(s) && d in s.phase && s.phase[d].Ready?
    ensures s.phase[d].h !in s.freeing && s.phase[d].h !in s.hdrPool
  {
    assert PhaseOk(s, d) && HeaderOk(s, s.phase[d].h);
  }

  lemma {:induction false} RunSized(steps: seq<Step>)
    requires AllCovered(steps)
    ensures Sized(Run(START, steps))
    decreases |steps|
  {
    hide Inv, Next, Covered, SizedHeader, SizedPhase;
    if steps == [] {
      assert Sized(START) by { NothingSized(); }
    } else {
      var n := |steps| - 1;
      var s := Run(START, steps[..n]);
      CoveredPrefix(steps, n);
      CoveredInv(steps[..n]);
      RunSized(steps[..n]);
      forall h: nat ensures h < |Next(s, steps[n]).hdrs| ==> SizedHeader(Next(s, steps[n]).hdrs[h])
      {
        HeaderSized(s, steps[n], h);
      }
      forall d ensures SizedPhase(Next(s, steps[n]), d) { PhaseSized(s, steps[n], d); }
    }
  }

  lemma {:induction false} NothingSized()
    ensures Sized(START)
  {
  }

  /** A slab of class c is the smallest that holds this many bytes. */
  predicate FitsBest(c: int, need: nat)
  {
    0 <= c < |SIZES| && need <= SIZES[c] && forall i :: 0 <= i < c ==> SIZES[i] < need
  }

  /**
   In every such run each header's slab is one of the smallest size that holds what was asked for, and a
   loop that is about to read has one, unless it reads more than 65536 bytes.
   */
  lemma {:induction false} BuffersFit(steps: seq<Step>)
    requires AllCovered(steps)
    ensures var s := Run(START, steps);
      && (forall h :: 0 <= h < |s.hdrs| && s.hdrs[h].slab.Some? ==>
            s.hdrs[h].slab.value < |s.slabs| && FitsBest(s.slabs[s.hdrs[h].slab.value], s.hdrs[h].need))
      && (forall d :: d in s.phase && s.phase[d].Ready? ==>
            && s.phase[d].h < |s.hdrs|
            && (s.hdrs[s.phase[d].h].slab.Some? <==> s.hdrs[s.phase[d].h].need <= 65536))
  {
    hide Run, AllCovered, PickClass, MsgOk, SlabsOk;
    RunSized(steps);
    CoveredInv(steps);
    var s := Run(START, steps);
    forall h | 0 <= h < |s.hdrs| && s.hdrs[h].slab.Some?
      ensures s.hdrs[h].slab.value < |s.slabs| && FitsBest(s.slabs[s.hdrs[h].slab.value], s.hdrs[h].need)
    {
      assert HeaderOk(s, h) && SizedHeader(s.hdrs[h]);
    }
    forall d | d in s.phase && s.phase[d].Ready?
      ensures s.phase[d].h < |s.hdrs|
      ensures s.hdrs[s.phase[d].h].slab.Some? <==> s.hdrs[s.phase[d].h].need <= 65536
    {
      assert PhaseOk(s, d) && SizedPhase(s, d) && SizedHeader(s.hdrs[s.phase[d].h]);
      LargestClass(s.hdrs[s.phase[d].h].need);
    }
  }

  lemma {:induction false} LargestClass(n: nat)
    ensures PickClass(n) >= 0 <==> n <= 65536
  {
  }

  // ---- and exactly those runs ----

  predicate NoneBegins(steps: seq<Step>)
  {
    forall i :: 0 <= i < |steps| ==> !Begins(steps[i])
  }

  lemma {:induction false} RunConcat(s: State, a: seq<Step>, b: seq<Step>)
    ensures Run(s, a + b) == Run(Run(s, a), b)
    decreases |b|
  {
    hide Next;
    if b == [] {
      assert a + b == a;
    } else {
      var n := |b| - 1;
      RunConcat(s, a, b[..n]);
      assert (a + b)[..|a + b| - 1] == a + b[..n];
    }
  }

  lemma {:induction false} RunOne(s: State, step: Step)
    ensures Run(s, [step]) == Next(s, step)
  {
    hide Next;
    assert [step][..0] == [];
  }

  function Times(step: Step, n: nat): seq<Step>
  {
    seq(n, _ => step)
  }

  lemma {:induction false} OneMoreTime(s: State, step: Step, n: nat)
    requires n > 0
    ensures Run(s, Times(step, n)) == Next(Run(s, Times(step, n - 1)), step)
  {
    hide Next;
    assert Times(step, n)[..n - 1] == Times(step, n - 1);
  }

  lemma {:induction false} ClearTimes(s: State, m: nat, n: nat)
    requires m < |s.msgs| && n <= s.msgs[m].loaded
    ensures var x := s.msgs[m];
      Run(s, Times(Clear(m), n)) ==
        SetMsg(s, m, x.(loaded := x.loaded - n, cleared := x.cleared + n, ref := if n == 0 then x.ref else false))
    decreases n
  {
    hide Run;
    if n == 0 {
      assert Run(s, Times(Clear(m), 0)) == s by { NothingRun(s, Times(Clear(m), 0)); }
      assert s.msgs[m := s.msgs[m]] == s.msgs;
    } else {
      ClearTimes(s, m, n - 1);
      OneMoreTime(s, Clear(m), n);
    }
  }

  lemma {:induction false} NothingRun(s: State, steps: seq<Step>)
    requires |steps| == 0
    ensures Run(s, steps) == s
  {
  }

  lemma {:induction false} DownTimes(s: State, m: nat, n: nat)
    requires m < |s.msgs| && n <= s.msgs[m].cleared && s.msgs[m].h < |s.hdrs|
    ensures var (x, t) := (s.msgs[m], Run(s, Times(CountDown(m), n)));
      && t.msgs == s.msgs[m := x.(cleared := x.cleared - n, downs := x.downs + n)]
      && t.hdrs == s.hdrs[x.h := s.hdrs[x.h].(refs := s.hdrs[x.h].refs - n)]
      && t.phase == s.phase && (s.hdrs[x.h].refs - n == 0 && n > 0 ==> x.h in t.freeing)
    decreases n
  {
    hide Run;
    if n == 0 {
      NothingRun(s, Times(CountDown(m), 0));
      assert s.msgs[m := s.msgs[m]] == s.msgs && s.hdrs[s.msgs[m].h := s.hdrs[s.msgs[m].h]] == s.hdrs;
    } else {
      DownTimes(s, m, n - 1);
      OneMoreTime(s, CountDown(m), n);
    }
  }

  /** Every Release of m that has loaded the field clears it and counts down. */
  function Drain(m: nat, n: nat): seq<Step>
  {
    Times(Clear(m), n) + Times(CountDown(m), n)
  }

  /**
   A message some callers have begun to release: a good state but for how many calls are under way on m,
   none of which has yet cleared the field.
   */
  ghost predicate UnderWay(s: State, t: State, m: nat)
  {
    && Inv(s) && m < |s.msgs| && s.msgs[m].visible && s.msgs[m].ref
    && m < |t.msgs| && var x := t.msgs[m];
    t == SetMsg(s, m, s.msgs[m].(loaded := x.loaded, open := x.open, tested := x.tested))
  }

  lemma {:induction false} Drained(s: State, t: State, m: nat)
    requires UnderWay(s, t, m)
    ensures var (x, u) := (t.msgs[m], Run(t, Drain(m, t.msgs[m].loaded)));
      && x.h < |t.hdrs| && s.hdrs[x.h].msg == Some(m)
      && u.phase == s.phase && |u.msgs| == |s.msgs| && |u.hdrs| == |s.hdrs|
      && (forall k :: 0 <= k < |s.msgs| && k != m ==> u.msgs[k] == s.msgs[k])
      && u.msgs[m] == x.(loaded := 0, cleared := 0, downs := x.loaded, ref := if x.loaded == 0 then x.ref else false)
      && u.hdrs[x.h] == s.hdrs[x.h].(refs := Held(s, s.hdrs[x.h]) - x.loaded)
      && Held(s, s.hdrs[x.h]) == (if s.hdrs[x.h].local.Some? then 1 else 0) + 1 + x.retains
      && (u.hdrs[x.h].refs == 0 && x.loaded > 0 ==> x.h in u.freeing)
  {
    hide Run, PhaseOk, SlabsOk;
    var x := t.msgs[m];
    assert MsgOk(s, m) && HeaderOk(s, x.h);
    ClearTimes(t, m, x.loaded);
    var w := Run(t, Times(Clear(m), x.loaded));
    DownTimes(w, m, x.loaded);
    RunConcat(t, Times(Clear(m), x.loaded), Times(CountDown(m), x.loaded));
  }

  /** One Release too many: the count ends below the number of holders. */
  lemma {:induction false} ReleasedTooOften(s: State, t: State, m: nat)
    requires UnderWay(s, t, m) && t.msgs[m].loaded == 2 + t.msgs[m].retains
    ensures NoneBegins(Drain(m, t.msgs[m].loaded)) && !Safe(Run(t, Drain(m, t.msgs[m].loaded)))
  {
    hide Run;
    Drained(s, t, m);
    var (x, u) := (t.msgs[m], Run(t, Drain(m, t.msgs[m].loaded)));
    var b := s.hdrs[x.h];
    var locals := if b.local.Some? then {Local(b.local.value)} else {};
    forall d | d in s.phase && s.phase[d].h == x.h ensures Local(d) in locals { assert PhaseOk(s, d); }
    forall p: nat | p < |u.msgs| && u.msgs[p].h == x.h ensures !u.msgs[p].counted || u.msgs[p].downs > u.msgs[p].retains
    {
      assert MsgOk(s, p);
    }
    assert HeaderOk(s, x.h);
    assert Holders(u, x.h) == locals;
  }

  /** The dispatch loop's own release, if it is still to come. */
  function LocalRelease(b: Header): seq<Step>
  {
    if b.local.Some? then [ReleaseLocal(b.local.value)] else []
  }

  lemma {:induction false} DrainedAndFreed(s: State, t: State, m: nat)
    requires UnderWay(s, t, m) && t.msgs[m].loaded == 1 + t.msgs[m].retains && t.msgs[m].h < |s.hdrs|
    ensures var (x, n) := (t.msgs[m], t.msgs[m].loaded);
      var v := Run(t, Drain(m, n) + LocalRelease(s.hdrs[x.h]));
      && x.h in v.freeing && m < |v.msgs| && x.h < |v.hdrs| && x.counted
      && v.msgs[m] == x.(loaded := 0, cleared := 0, downs := n, ref := false)
  {
    hide Run, SlabsOk;
    Drained(s, t, m);
    var (x, u) := (t.msgs[m], Run(t, Drain(m, t.msgs[m].loaded)));
    var b := s.hdrs[x.h];
    assert HeaderOk(s, x.h) && MsgOk(s, m);
    RunConcat(t, Drain(m, x.loaded), LocalRelease(b));
    if b.local.Some? {
      assert PhaseOk(s, b.local.value);
      RunOne(u, ReleaseLocal(b.local.value));
    } else {
      NothingRun(u, []);
    }
  }

  lemma {:induction false} QuietDrain(m: nat, n: nat, b: Header)
    ensures NoneBegins(Drain(m, n) + LocalRelease(b) + [AddRetain(m)])
  {
  }

  lemma {:induction false} RetainedFreed(v: State, m: nat)
    requires m < |v.msgs| && v.msgs[m].h < |v.hdrs| && v.msgs[m].h in v.freeing
    requires v.msgs[m].counted && v.msgs[m].open > 0 && v.msgs[m].downs <= 1 + v.msgs[m].retains
    ensures !Safe(Next(v, AddRetain(m)))
  {
    var w := Next(v, AddRetain(m));
    assert Share(m, 1 + v.msgs[m].retains) in Holders(w, v.msgs[m].h);
  }

  /** A Retain whose message is released under it: a freed header ends with a holder. */
  lemma {:induction false} RetainedTooLate(s: State, t: State, m: nat)
    requires UnderWay(s, t, m) && t.msgs[m].loaded == 1 + t.msgs[m].retains && t.msgs[m].open > 0
    ensures exists steps :: NoneBegins(steps) && !Safe(Run(t, steps))
  {
    hide Run, Inv, Safe, Next, Drain, LocalRelease, NoneBegins;
    var x := t.msgs[m];
    assert x.h < |s.hdrs| by { InvAt(s, m); }
    DrainedAndFreed(s, t, m);
    var steps := Drain(m, x.loaded) + LocalRelease(s.hdrs[x.h]);
    var v := Run(t, steps);
    RunOne(v, AddRetain(m));
    RetainedFreed(v, m);
    RunConcat(t, steps, [AddRetain(m)]);
    QuietDrain(m, x.loaded, s.hdrs[x.h]);
    assert NoneBegins(steps + [AddRetain(m)]) && !Safe(Run(t, steps + [AddRetain(m)]));
  }

  lemma {:induction false} InvAt(s: State, m: nat)
    requires Inv(s)
    ensures MsgOk(s, m)
  {
  }

  /** A Release clears the field between a Retain's test and its load. */
  lemma {:induction false} NilLoaded(t: State, m: nat)
    requires m < |t.msgs| && t.msgs[m].loaded > 0 && t.msgs[m].tested > 0
    ensures NoneBegins([Clear(m)] + [LoadRetain(m)])
    ensures Run(t, [Clear(m)] + [LoadRetain(m)]).fault && !Safe(Run(t, [Clear(m)] + [LoadRetain(m)]))
  {
    hide Run;
    RunOne(t, Clear(m));
    RunConcat(t, [Clear(m)], [LoadRetain(m)]);
    RunOne(Next(t, Clear(m)), LoadRetain(m));
  }

  lemma {:induction false} UncoveredBreaks(s: State, step: Step)
    requires Inv(s) && Begins(step) && !Covered(Next(s, step))
    ensures exists steps :: NoneBegins(steps) && !Safe(Run(Next(s, step), steps))
  {
    hide Safe, Run, SlabsOk, HeaderOk, PhaseOk;
    var t := Next(s, step);
    var m := step.m;
    assert MsgOk(s, m);
    var k :| 0 <= k < |t.msgs| && !CoveredAt(t.msgs[k]);
    assert MsgOk(s, k);
    assert UnderWay(s, t, m);
    if t.msgs[m].tested > 0 {
      NilLoaded(t, m);
      assert NoneBegins([Clear(m)] + [LoadRetain(m)]);
    } else if t.msgs[m].open == 0 {
      ReleasedTooOften(s, t, m);
    } else {
      RetainedTooLate(s, t, m);
    }
  }

  lemma {:induction false} FinishingKeeps(s: State, steps: seq<Step>)
    requires Inv(s) && NoneBegins(steps)
    ensures Inv(Run(s, steps))
    decreases |steps|
  {
    hide Inv, Next, Begins;
    if steps != [] {
      var n := |steps| - 1;
      FinishingKeeps(s, steps[..n]);
      NextInv(Run(s, steps[..n]), steps[n]);
    }
  }

  /**
   The exact condition. After a run that was covered so far and one more step: every way to go on without
   beginning further calls is safe if and only if the state is covered, that is, if no message has more
   Releases past their load, and Retains past theirs, than references, or a Release past its load while a
   Retain is before its own.
   */
  lemma {:induction false} SafeExactlyWhenCovered(steps: seq<Step>, step: Step)
    requires AllCovered(steps)
    ensures Covered(Next(Run(START, steps), step)) <==>
      forall more :: NoneBegins(more) ==> Safe(Run(Next(Run(START, steps), step), more))
  {
    hide Run, Safe, Next, Begins, NoneBegins, AllCovered;
    CoveredInv(steps);
    var s := Run(START, steps);
    var t := Next(s, step);
    if Covered(t) {
      NextInv(s, step);
      forall more | NoneBegins(more) ensures Safe(Run(t, more))
      {
        FinishingKeeps(t, more);
        InvSafe(Run(t, more));
      }
    } else {
      if !Begins(step) {
        NextInv(s, step);
        InvCovered(t);
      }
      UncoveredBreaks(s, step);
    }
  }

  lemma {:induction false} InvCovered(s: State)
    requires Inv(s)
    ensures Covered(s)
  {
    forall m | 0 <= m < |s.msgs| ensures CoveredAt(s.msgs[m]) { assert MsgOk(s, m); }
  }

  // ---- one call on a message at a time ----

  /** No Retain or Release of a message begins while another is before its write. */
  predicate Calm(s: State, step: Step)
  {
    Begins(step) && step.m < |s.msgs| ==>
      s.msgs[step.m].loaded == 0 && s.msgs[step.m].open == 0 && s.msgs[step.m].tested == 0
  }

  predicate OneAtATime(steps: seq<Step>)
  {
    forall i :: 0 <= i < |steps| ==> Calm(Run(START, steps[..i]), steps[i])
  }

  predicate OnceAt(x: Message)
  {
    Loads(x) + x.open + x.tested <= 1
  }

  /** Of calls made one at a time, one Release loads the field and no more. */
  predicate ReleasedOnce(s: State)
  {
    forall m :: 0 <= m < |s.msgs| ==> OnceAt(s.msgs[m])
  }

  lemma {:induction false} CalmLoop(s: State, step: Step, m: nat)
    requires Inv(s) && (m < |s.msgs| ==> OnceAt(s.msgs[m]))
    requires !step.TestRetain? && !step.LoadRetain? && !step.AddRetain?
    requires !step.Load? && !step.Clear? && !step.CountDown?
    ensures m < |Next(s, step).msgs| ==> OnceAt(Next(s, step).msgs[m])
  {
    hide Inv, HeaderOk, PickClass;
    if step.Undelivered? {
      PartsAt(s, step.d, 0);
    }
  }

  lemma {:induction false} CalmCall(s: State, step: Step, m: nat)
    requires Inv(s) && (m < |s.msgs| ==> OnceAt(s.msgs[m])) && Calm(s, step)
    requires step.TestRetain? || step.LoadRetain? || step.AddRetain? || step.Load? || step.Clear? || step.CountDown?
    ensures m < |Next(s, step).msgs| ==> OnceAt(Next(s, step).msgs[m])
  {
    hide Inv, HeaderOk;
    InvAt(s, m);
  }

  lemma {:induction false} CalmStep(s: State, step: Step)
    requires Inv(s) && ReleasedOnce(s) && Calm(s, step)
    ensures ReleasedOnce(Next(s, step))
  {
    hide Inv, Next, Calm, OnceAt;
    var t := Next(s, step);
    forall m: nat | m < |t.msgs| ensures OnceAt(t.msgs[m])
    {
      if step.TestRetain? || step.LoadRetain? || step.AddRetain? || step.Load? || step.Clear? || step.CountDown? {
        CalmCall(s, step, m);
      } else {
        CalmLoop(s, step, m);
      }
    }
  }

  lemma {:induction false} OnceCovered(s: State)
    requires ReleasedOnce(s)
    ensures Covered(s)
  {
  }

  lemma {:induction false} CalmRuns(steps: seq<Step>)
    requires OneAtATime(steps)
    ensures AllCovered(steps) && ReleasedOnce(Run(START, steps))
    decreases |steps|
  {
    hide Inv, Next, Covered, Calm, ReleasedOnce;
    if steps == [] {
      OnceCovered(START) by { StartOnce(); }
      StartOnce();
    } else {
      var n := |steps| - 1;
      forall i | 0 <= i < n ensures Calm(Run(START, steps[..n][..i]), steps[..n][i])
      {
        assert steps[..n][..i] == steps[..i];
      }
      CalmRuns(steps[..n]);
      CoveredInv(steps[..n]);
      CalmStep(Run(START, steps[..n]), steps[n]);
      OnceCovered(Run(START, steps));
      forall i | 0 <= i <= |steps| ensures Covered(Run(START, steps[..i]))
      {
        if i == |steps| {
          assert steps[..i] == steps;
        } else {
          assert steps[..i] == steps[..n][..i];
        }
      }
    }
  }

  lemma {:induction false} StartOnce()
    ensures ReleasedOnce(START)
  {
  }

  // ---- when the buffer goes back ----

  /** Every call on the message has returned, one was a Release, and the loop that delivered it is done with it. */
  predicate Settled(s: State, m: nat)
  {
    && m < |s.msgs| && s.msgs[m].h < |s.hdrs|
    && var x := s.msgs[m];
    && x.visible && !x.ref && x.loaded == 0 && x.cleared == 0 && x.open == 0 && x.tested == 0
    && (s.hdrs[x.h].msg == Some(m) ==> s.hdrs[x.h].local.None?)
  }

  predicate InPools(s: State, h: nat, slab: Option<nat>)
  {
    && h in s.hdrPool
    && (slab.Some? ==> slab.value < |s.slabs| && (s.slabs[slab.value], slab.value) in s.slabPool)
  }

  /** The header is neither pooled nor being freed, has the slab still, and the slab is in no pool. */
  predicate OutOfPools(s: State, h: nat, slab: Option<nat>)
  {
    && h < |s.hdrs| && h !in s.hdrPool && h !in s.freeing && s.hdrs[h].slab == slab
    && (slab.Some? ==> forall e :: e in s.slabPool ==> e.1 != slab.value)
  }

  lemma {:induction false} HeldIsOut(s: State, m: nat)
    requires Inv(s) && m < |s.msgs| && s.msgs[m].counted && Out(s.msgs[m]) > 0
    ensures OutOfPools(s, s.msgs[m].h, s.msgs[m].slab) && m !in s.home
  {
    var h := s.msgs[m].h;
    assert MsgOk(s, m) && HeaderOk(s, h);
    forall e | e in s.slabPool && s.hdrs[h].slab.Some? ensures e.1 != s.hdrs[h].slab.value
    {
      assert SlabOk(s, e.0, e.1);
    }
  }

  /** The two puts of the thread that counted down to zero. */
  function Puts(s: State, h: nat): State
  {
    PutHeaderS(PutSlabS(s, h), h)
  }

  lemma {:induction false} PutsReturn(s: State, m: nat)
    requires Inv(s) && Settled(s, m) && Out(s.msgs[m]) == 0 && m !in s.home
    ensures var (x, t) := (s.msgs[m], Puts(s, s.msgs[m].h));
      m in t.home && x.h in t.hdrPool && (s.hdrs[x.h].slab == x.slab ==> InPools(t, x.h, x.slab))
  {
    var h := s.msgs[m].h;
    assert MsgOk(s, m) && HeaderOk(s, h);
  }

  /**
   Retain, then Release, does not balance. Of a message whose calls were made one at a time, have all
   returned, and released it: once the puts are done its header has gone back to the pool if and only if
   Retain was never called, and if no put was made before, header and slab are then both in their pools.
   After a Retain they are in no pool.
   */
  lemma {:induction false} ReturnedIffNotRetained(steps: seq<Step>, m: nat)
    requires OneAtATime(steps) && Settled(Run(START, steps), m)
    ensures var s := Run(START, steps);
      var (x, t) := (s.msgs[m], Puts(s, s.msgs[m].h));
      && (m in t.home <==> x.retains == 0)
      && (m !in s.home && s.hdrs[x.h].slab == x.slab ==> (InPools(t, x.h, x.slab) <==> x.retains == 0))
      && (x.retains > 0 ==> t == s && OutOfPools(s, x.h, x.slab))
  {
    hide Run, OneAtATime, Inv;
    CalmRuns(steps);
    CoveredInv(steps);
    var s := Run(START, steps);
    InvAt(s, m);
    if s.msgs[m].retains > 0 {
      HeldIsOut(s, m);
    } else if m !in s.home {
      PutsReturn(s, m);
    } else {
      HomeStays(s, s.msgs[m].h);
    }
  }

  lemma {:induction false} HomeStays(s: State, h: nat)
    ensures s.home <= Puts(s, h).home
  {
  }

  // ---- messages nobody waits for ----

  /** The loop that counted the message in has not handed it over. */
  predicate WithLoop(s: State, m: nat)
    requires m < |s.msgs|
  {
    var h := s.msgs[m].h;
    && h < |s.hdrs| && s.hdrs[h].local.Some? && s.hdrs[h].local.value in s.phase
    && s.phase[s.hdrs[h].local.value] == Retained(h, m)
  }

  /** A message that was counted in and given to no Call is still with its loop, or released by it. */
  predicate AccountedFor(s: State, m: nat)
  {
    m < |s.msgs| && s.msgs[m].counted && !s.msgs[m].visible ==>
      var x := s.msgs[m];
      x.retains + x.open + x.tested == 0 && (WithLoop(s, m) || Loads(x) == 1)
  }

  lemma {:induction false} LoopAccounted(s: State, d: nat, m: nat)
    requires Inv(s) && AccountedFor(s, m)
    ensures AccountedFor(AttachS(s, d), m) && AccountedFor(RetainS(s, d), m)
  {
    hide Inv;
    if d in s.phase {
      PartsAt(s, d, s.phase[d].h);
    }
    MessageAt(s, m);
  }

  lemma {:induction false} MessageAt(s: State, m: nat)
    requires Inv(s)
    ensures MsgOk(s, m)
  {
  }

  lemma {:induction false} HandOverAccounted(s: State, d: nat, delivered: bool, m: nat)
    requires PhaseOk(s, d) && AccountedFor(s, m)
    ensures AccountedFor(HandOverS(s, d, delivered), m)
  {
  }

  lemma {:induction false} FilledAccounted(s: State, d: nat, p: Option<nat>, n: nat, m: nat)
    requires Inv(s) && AccountedFor(s, m)
    ensures AccountedFor(GetHeaderS(s, d, p, n), m)
  {
    hide PickClass, Inv, Loads;
    if m < |s.msgs| && WithLoop(s, m) {
      LoopHolds(s, s.hdrs[s.msgs[m].h].local.value);
      LoopKeeps(s, s.hdrs[s.msgs[m].h].local.value);
    }
  }

  lemma {:induction false} SlabAccounted(s: State, d: nat, p: Option<nat>, m: nat)
    requires AccountedFor(s, m)
    ensures AccountedFor(GetSlabS(s, d, p), m)
  {
    hide Loads;
  }

  lemma {:induction false} LoseAccounted(s: State, pool: multiset<nat>, slabs: multiset<(int, nat)>, m: nat)
    requires AccountedFor(s, m)
    ensures AccountedFor(s.(hdrPool := pool), m) && AccountedFor(s.(slabPool := slabs), m)
  {
    hide Loads;
  }

  lemma {:induction false} LoopKeeps(s: State, d: nat)
    requires Inv(s) && d in s.phase && s.phase[d].Retained?
    ensures s.phase[d].h !in s.hdrPool
  {
    assert PhaseOk(s, d) && HeaderOk(s, s.phase[d].h) && MsgOk(s, s.phase[d].m);
  }

  lemma {:induction false} DoneAccounted(s: State, d: nat, m: nat)
    requires PhaseOk(s, d) && AccountedFor(s, m)
    ensures AccountedFor(ReleaseLocalS(s, d), m) && AccountedFor(Next(s, Skip(d)), m)
  {
    hide Loads;
  }

  lemma {:induction false} CalledAccounted(s: State, k: nat, m: nat)
    requires AccountedFor(s, m)
    ensures AccountedFor(TestRetainS(s, k), m) && AccountedFor(LoadRetainS(s, k), m) && AccountedFor(LoadS(s, k), m)
  {
  }

  lemma {:induction false} CountedAccounted(s: State, k: nat, m: nat)
    requires AccountedFor(s, m)
    ensures AccountedFor(AddRetainS(s, k), m) && AccountedFor(ClearS(s, k), m) && AccountedFor(CountDownS(s, k), m)
  {
  }

  lemma {:induction false} PutAccounted(s: State, h: nat, m: nat)
    requires AccountedFor(s, m)
    ensures AccountedFor(PutSlabS(s, h), m) && AccountedFor(PutHeaderS(s, h), m)
  {
    hide Loads;
  }

  lemma {:induction false} NextAccounted(s: State, step: Step, m: nat)
    requires Inv(s) && AccountedFor(s, m)
    ensures AccountedFor(Next(s, step), m)
  {
    hide Inv, PickClass, GetHeaderS, GetSlabS, PutSlabS, AttachS, RetainS, HandOverS, ReleaseLocalS, TestRetainS,
         LoadRetainS, AddRetainS, LoadS, ClearS, CountDownS, PutHeaderS, PhaseOk,
         AccountedFor;
    match step
    case GetHeader(d, p, n) => FilledAccounted(s, d, p, n, m);
    case GetSlab(d, p) => SlabAccounted(s, d, p, m);
    case Skip(d) => PhaseAt(s, d); DoneAccounted(s, d, m);
    case Attach(d) => LoopAccounted(s, d, m);
    case Retain(d) => LoopAccounted(s, d, m);
    case Deliver(d) => PhaseAt(s, d); HandOverAccounted(s, d, true, m);
    case Undelivered(d) => PhaseAt(s, d); HandOverAccounted(s, d, false, m);
    case ReleaseLocal(d) => PhaseAt(s, d); DoneAccounted(s, d, m);
    case TestRetain(k) => CalledAccounted(s, k, m);
    case LoadRetain(k) => CalledAccounted(s, k, m);
    case AddRetain(k) => CountedAccounted(s, k, m);
    case Load(k) => CalledAccounted(s, k, m);
    case Clear(k) => CountedAccounted(s, k, m);
    case CountDown(k) => CountedAccounted(s, k, m);
    case PutSlab(h) => PutAccounted(s, h, m);
    case PutHeader(h) => PutAccounted(s, h, m);
    case LoseHeader(h) => LoseAccounted(s, s.hdrPool - multiset{h}, s.slabPool, m);
    case LoseSlab(c, x) => LoseAccounted(s, s.hdrPool, s.slabPool - multiset{(c, x)}, m);
  }

  lemma {:induction false} PhaseAt(s: State, d: nat)
    requires Inv(s)
    ensures PhaseOk(s, d)
  {
  }

  lemma {:induction false} RunAccounted(steps: seq<Step>, m: nat)
    requires AllCovered(steps)
    ensures AccountedFor(Run(START, steps), m)
    decreases |steps|
  {
    hide Inv, Next, Covered, AccountedFor;
    if steps == [] {
      assert AccountedFor(START, m) by { NothingAccounted(m); }
    } else {
      var n := |steps| - 1;
      CoveredPrefix(steps, n);
      CoveredInv(steps[..n]);
      RunAccounted(steps[..n], m);
      NextAccounted(Run(START, steps[..n]), steps[n], m);
    }
  }

  lemma {:induction false} NothingAccounted(m: nat)
    ensures AccountedFor(START, m)
  {
  }

  /**
   A response nobody waited for is not leaked: in every covered run, a message that was counted in and
   given to no Call is with its loop still, or released by it once; and when that release and the loop are
   done, and the puts, its header is back in the pool.
   */
  lemma {:induction false} UndeliveredReturned(steps: seq<Step>, m: nat)
    requires AllCovered(steps) && m < |Run(START, steps).msgs|
    requires var x := Run(START, steps).msgs[m]; x.counted && !x.visible
    ensures var (s, x) := (Run(START, steps), Run(START, steps).msgs[m]);
      && (WithLoop(s, m) || Loads(x) == 1)
      && (!WithLoop(s, m) && x.downs == 1 && x.h < |s.hdrs| && (s.hdrs[x.h].msg == Some(m) ==> s.hdrs[x.h].local.None?)
          ==> m in Puts(s, x.h).home)
  {
    hide Run, AllCovered, Inv, Puts;
    RunAccounted(steps, m);
    CoveredInv(steps);
    var (s, x) := (Run(START, steps), Run(START, steps).msgs[m]);
    if !WithLoop(s, m) && x.downs == 1 && x.h < |s.hdrs|
        && (s.hdrs[x.h].msg == Some(m) ==> s.hdrs[x.h].local.None?) {
      UndeliveredHome(s, m);
    }
  }

  lemma {:induction false} UndeliveredHome(s: State, m: nat)
    requires Inv(s) && m < |s.msgs| && s.msgs[m].counted && !s.msgs[m].visible && s.msgs[m].downs == 1
    requires s.msgs[m].h < |s.hdrs| && Loads(s.msgs[m]) == 1 && s.msgs[m].retains == 0
    requires s.hdrs[s.msgs[m].h].msg == Some(m) ==> s.hdrs[s.msgs[m].h].local.None?
    ensures m in Puts(s, s.msgs[m].h).home
  {
    var h := s.msgs[m].h;
    assert MsgOk(s, m) && HeaderOk(s, h);
  }

  // ---- and what is not returned never is ----

  lemma {:induction false} FrozenMessage(s: State, step: Step, m: nat)
    requires Inv(s) && Settled(s, m) && Out(s.msgs[m]) > 0
    ensures m < |Next(s, step).msgs| && Next(s, step).msgs[m] == s.msgs[m]
  {
    hide SlabsOk, HeaderOk, PickClass;
    assert MsgOk(s, m);
    if step.Retain? || step.Deliver? || step.Undelivered? {
      assert PhaseOk(s, step.d);
    }
  }

  /** Only a taken header gets a new dispatch loop, and that forgets its message. */
  predicate NoNewLocalAt(s: State, t: State, h: nat)
  {
    h < |s.hdrs| && s.hdrs[h].local.None? ==> h < |t.hdrs| && (t.hdrs[h].local.None? || t.hdrs[h].msg.None?)
  }

  lemma {:induction false} TakenForgets(s: State, d: nat, pooled: Option<nat>, n: nat, h: nat)
    ensures NoNewLocalAt(s, GetHeaderS(s, d, pooled, n), h)
  {
    hide PickClass;
  }

  lemma {:induction false} LoopKeepsLocal(s: State, step: Step, h: nat)
    requires step.GetSlab? || step.Skip? || step.Attach?
    ensures NoNewLocalAt(s, Next(s, step), h)
  {
    hide Count, SetMsg;
  }

  lemma {:induction false} TurnKeepsLocal(s: State, step: Step, h: nat)
    requires step.Retain? || step.Deliver? || step.Undelivered? || step.ReleaseLocal?
    ensures NoNewLocalAt(s, Next(s, step), h)
  {
  }

  lemma {:induction false} CallKeepsLocal(s: State, step: Step, h: nat)
    requires step.TestRetain? || step.LoadRetain? || step.AddRetain? || step.Load? || step.Clear? || step.CountDown?
    ensures NoNewLocalAt(s, Next(s, step), h)
  {
  }

  lemma {:induction false} NoNewLocal(s: State, step: Step, h: nat)
    ensures NoNewLocalAt(s, Next(s, step), h)
  {
    hide PickClass, GetHeaderS, GetSlabS, AttachS, RetainS, HandOverS, ReleaseLocalS, Count, SetMsg;
    if step.GetHeader? {
      TakenForgets(s, step.d, step.pooled, step.n, h);
    } else if step.GetSlab? || step.Skip? || step.Attach? {
      LoopKeepsLocal(s, step, h);
    } else if step.Retain? || step.Deliver? || step.Undelivered? || step.ReleaseLocal? {
      TurnKeepsLocal(s, step, h);
    } else if step.PutSlab? || step.PutHeader? || step.LoseHeader? || step.LoseSlab? {
    } else {
      CallKeepsLocal(s, step, h);
    }
  }

  lemma {:induction false} FrozenStep(s: State, step: Step, m: nat)
    requires Inv(s) && Settled(s, m) && Out(s.msgs[m]) > 0
    ensures Settled(Next(s, step), m) && Next(s, step).msgs[m] == s.msgs[m]
  {
    hide Next, Inv;
    FrozenMessage(s, step, m);
    InvAt(s, m);
    NoNewLocal(s, step, s.msgs[m].h);
  }

  /** A reference no call will give back keeps the header and its slab out of the pools in every later run. */
  lemma {:induction false} KeptForGood(steps: seq<Step>, more: seq<Step>, m: nat)
    requires AllCovered(steps + more) && Settled(Run(START, steps), m) && Out(Run(START, steps).msgs[m]) > 0
    ensures var (s, t) := (Run(START, steps), Run(START, steps + more));
      Settled(t, m) && t.msgs[m] == s.msgs[m] && OutOfPools(t, s.msgs[m].h, s.msgs[m].slab) && m !in t.home
    decreases |more|
  {
    hide Run, Inv, Next, OutOfPools, Covered;
    var t := Run(START, steps + more);
    CoveredInv(steps + more);
    if more == [] {
      assert steps + more == steps;
    } else {
      var n := |more| - 1;
      CoveredPrefix(steps + more, |steps + more| - 1);
      assert (steps + more)[..|steps + more| - 1] == steps + more[..n];
      KeptForGood(steps, more[..n], m);
      CoveredInv(steps + more[..n]);
      RunLast(START, steps + more[..n], more[n]);
      assert steps + more[..n] + [more[n]] == steps + more;
      FrozenStep(Run(START, steps + more[..n]), more[n], m);
    }
    InvAt(t, m);
    HeldIsOut(t, m);
  }

  lemma {:induction false} RunLast(s: State, steps: seq<Step>, step: Step)
    ensures Run(s, steps + [step]) == Next(Run(s, steps), step)
  {
    hide Next;
    assert (steps + [step])[..|steps + [step]| - 1] == steps;
  }

  /** A delivered message nobody has retained or released holds the one reference there is. */
  lemma {:induction false} DeliveredHeldOnce(steps: seq<Step>, m: nat)
    requires AllCovered(steps) && m < |Run(START, steps).msgs|
    requires var (s, x) := (Run(START, steps), Run(START, steps).msgs[m]);
      x.visible && x.retains == 0 && Loads(x) == 0 && x.h < |s.hdrs| && s.hdrs[x.h].local.None?
    ensures var (s, x) := (Run(START, steps), Run(START, steps).msgs[m]);
      s.hdrs[x.h].refs == 1 && Holders(s, x.h) == {Share(m, 0)} && OutOfPools(s, x.h, x.slab)
  {
    hide Run, Inv;
    CoveredInv(steps);
    var s := Run(START, steps);
    InvAt(s, m);
    HeldIsOut(s, m);
    HeldBy(s, m);
  }

  lemma {:induction false} HeldBy(s: State, m: nat)
    requires Inv(s) && m < |s.msgs| && s.msgs[m].counted && s.msgs[m].retains == 0 && s.msgs[m].downs == 0
    requires s.msgs[m].h < |s.hdrs| && s.hdrs[s.msgs[m].h].local.None?
    ensures var h := s.msgs[m].h;
      s.hdrs[h].refs == 1 && Holders(s, h) == {Share(m, 0)}
  {
    hide Holders;
    var h := s.msgs[m].h;
    assert MsgOk(s, m) && HeaderOk(s, h);
    HoldersAre(s, h);
    assert ShareSet(m, 0, 1) == {Share(m, 0)};
  }

  // ---- both are reached ----

  /** One more step of a run whose calls are made one at a time. */
  lemma {:induction false} Further(steps: seq<Step>, step: Step)
    requires OneAtATime(steps) && Calm(Run(START, steps), step)
    ensures OneAtATime(steps + [step]) && Run(START, steps + [step]) == Next(Run(START, steps), step)
  {
    hide Next, Calm, Run;
    RunLast(START, steps, step);
    forall i | 0 <= i <= |steps| ensures Calm(Run(START, (steps + [step])[..i]), (steps + [step])[i])
    {
      assert (steps + [step])[..i] == steps[..i];
      assert steps[..|steps|] == steps;
    }
  }

  /** A dispatch loop, 0, that reads n bytes into a buffer of the class that fits has attached a message. */
  lemma {:induction false} AttachedRun(n: nat) returns (steps: seq<Step>)
    requires PickClass(n) >= 0
    ensures OneAtATime(steps)
    ensures var c := PickClass(n);
      Run(START, steps) ==
        State([Header(1, Some(0), c, n, Some(0), Some(0))], [c], multiset{}, multiset{}, map[0 := Attached(0, 0)], {},
              [Message(0, Some(0), true, false, false, 0, 0, 0, 0, 0, 0)], {}, false)
  {
    hide Run, PickClass, OneAtATime;
    steps := [];
    NothingRun(START, steps);
    assert OneAtATime(steps) by { NothingCalls(); }
    Further(steps, GetHeader(0, None, n));
    steps := steps + [GetHeader(0, None, n)];
    Further(steps, GetSlab(0, None));
    steps := steps + [GetSlab(0, None)];
    Further(steps, Attach(0));
    steps := steps + [Attach(0)];
  }

  lemma {:induction false} NothingCalls()
    ensures OneAtATime([])
  {
  }

  /** It hands the message to a Call and is done. */
  lemma {:induction false} DeliveredRun(n: nat) returns (steps: seq<Step>)
    requires PickClass(n) >= 0
    ensures OneAtATime(steps)
    ensures var c := PickClass(n);
      Run(START, steps) ==
        State([Header(1, Some(0), c, n, None, Some(0))], [c], multiset{}, multiset{}, map[], {},
              [Message(0, Some(0), true, true, true, 0, 0, 0, 0, 0, 0)], {}, false)
  {
    hide Run, PickClass, OneAtATime;
    steps := AttachedRun(n);
    Further(steps, Retain(0));
    steps := steps + [Retain(0)];
    Further(steps, Deliver(0));
    steps := steps + [Deliver(0)];
    Further(steps, ReleaseLocal(0));
    steps := steps + [ReleaseLocal(0)];
  }

  /** For every n that has a class: a run of one Retain, then one Release, that keeps header and slab for good. */
  lemma {:induction false} LeakReached(n: nat) returns (steps: seq<Step>)
    requires PickClass(n) >= 0
    ensures OneAtATime(steps) && Settled(Run(START, steps), 0)
    ensures var s := Run(START, steps);
      && s.msgs[0].retains == 1 && s.msgs[0].h == 0 && s.msgs[0].slab == Some(0) && s.slabs == [PickClass(n)]
      && 0 !in s.hdrPool && (PickClass(n), 0) !in s.slabPool
  {
    hide Run, PickClass, OneAtATime;
    steps := DeliveredRun(n);
    Further(steps, TestRetain(0));
    steps := steps + [TestRetain(0)];
    Further(steps, LoadRetain(0));
    steps := steps + [LoadRetain(0)];
    Further(steps, AddRetain(0));
    steps := steps + [AddRetain(0)];
    Further(steps, Load(0));
    steps := steps + [Load(0)];
    Further(steps, Clear(0));
    steps := steps + [Clear(0)];
    Further(steps, CountDown(0));
    steps := steps + [CountDown(0)];
  }

  /** Two Releases of one delivered message that both load the field before either clears it. */
  lemma {:induction false} OverlapReached(n: nat) returns (steps: seq<Step>, more: seq<Step>)
    requires PickClass(n) >= 0
    ensures AllCovered(steps) && NoneBegins(more) && !Safe(Run(Next(Run(START, steps), Load(0)), more))
  {
    hide Run, PickClass, OneAtATime, AllCovered, Safe, NoneBegins;
    steps := DeliveredRun(n);
    Further(steps, Load(0));
    steps := steps + [Load(0)];
    CalmRuns(steps);
    var t := Next(Run(START, steps), Load(0));
    assert !CoveredAt(t.msgs[0]);
    CoveredInv(steps);
    UncoveredBreaks(Run(START, steps), Load(0));
    more :| NoneBegins(more) && !Safe(Run(t, more));
  }

  /** A Release that loads the field while a Retain is between its test and its load: the Retain meets nil. */
  lemma {:induction false} NilLoadReached(n: nat) returns (steps: seq<Step>)
    requires PickClass(n) >= 0
    ensures AllCovered(steps) && NoneBegins([Clear(0)] + [LoadRetain(0)])
    ensures var t := Next(Run(START, steps), Load(0));
      !Covered(t) && Run(t, [Clear(0)] + [LoadRetain(0)]).fault
  {
    hide Run, PickClass, OneAtATime, AllCovered;
    steps := DeliveredRun(n);
    Further(steps, TestRetain(0));
    steps := steps + [TestRetain(0)];
    CalmRuns(steps);
    var t := Next(Run(START, steps), Load(0));
    assert !CoveredAt(t.msgs[0]);
    NilLoaded(t, 0);
  }
}
