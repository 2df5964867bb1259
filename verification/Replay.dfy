/** The two-generation replay cache, the timestamp window, and the gate they form together. */
module Replay {
  import opened ByteStrings
  import opened Frames
  import opened Primitives

  const WINDOW: int := 30 * 1_000_000_000
  const CACHE_TTL: int := 60 * 1_000_000_000
  const CACHE_CAP: nat := 0x10_0000

  /** Client id (or namespaced PSK id) and client random. */
  datatype Key = Key(id: Bytes, random: Bytes)

  datatype Cache = Cache(active: set<Key>, frozen: set<Key>, frozenAt: int, ttl: int, maxLen: nat)

  /** Rotate when the frozen generation has aged out. */
  function Rotate(c: Cache, now: int): Cache
  {
    if now - c.frozenAt >= c.ttl then c.(active := {}, frozen := c.active, frozenAt := now) else c
  }

  /** The new cache, and whether the key is refused. */
  function SeenOrAddS(c: Cache, k: Key, now: int): (Cache, bool)
  {
    var r := Rotate(c, now);
    if k in r.frozen || k in r.active || |r.active| >= r.maxLen then (r, true)
    else (r.(active := r.active + {k}), false)
  }

  class ReplayCache {
    var active: set<Key>
    var frozen: set<Key>
    var frozenAt: int
    const ttl: int
    const maxLen: nat

    ghost function View(): Cache
      reads this
    {
      Cache(active, frozen, frozenAt, ttl, maxLen)
    }

    constructor (now: int)
      ensures View() == Cache({}, {}, now, CACHE_TTL, CACHE_CAP)
    {
      active, frozen, frozenAt, ttl, maxLen := {}, {}, now, CACHE_TTL, CACHE_CAP;
    }

    method SeenOrAdd(id: Bytes, random: Bytes, now: int) returns (seen: bool)
      modifies this
      ensures (View(), seen) == SeenOrAddS(old(View()), Key(id, random), now)
    {
      var key := Key(id, random);
      if now - frozenAt >= ttl {
        frozen := active;
        active := {};
        frozenAt := now;
      }
      if key in frozen {
        return true;
      }
      if key in active {
        return true;
      }
      if |active| >= maxLen {
        return true;
      }
      active := active + {key};
      return false;
    }

    method Sweep(now: int)
      modifies this
      ensures View() == Rotate(old(View()), now)
    {
      if now - frozenAt >= ttl {
        frozen := active;
        active := {};
        frozenAt := now;
      }
    }
  }

  // ---- the timestamp window ----

  /** A 64-bit pattern read as a signed integer. */
  function Int64(v: int): int
  {
    var m := v % TWO64;
    if m < TWO63 then m else m - TWO64
  }

  lemma {:induction false} Int64Wraps(v: int)
    requires -TWO64 <= v < TWO64
    ensures Int64(v) == (if v < -TWO63 then v + TWO64 else if v < TWO63 then v else v - TWO64)
  {
    if v < 0 {
      assert v % TWO64 == v + TWO64;
    }
  }

  /** `ts` is a uint64, `now` an int64; differences and negation wrap in 64 bits. */
  method CheckTimestamp(ts: int, now: int) returns (ok: bool)
    requires 0 <= ts < TWO64 && -TWO63 <= now < TWO63
    ensures ok == InWindow(ts, now)
  {
    hide Int64;
    if now < 0 {
      return false;
    }
    Int64Wraps(ts);
    Int64Wraps(Int64(ts) - now);
    Int64Wraps(-Int64(Int64(ts) - now));
    var skew := Int64(Int64(ts) - now);
    if skew < 0 {
      skew := Int64(-skew);
    }
    return !(skew > WINDOW);
  }

  /**
   Exactly the accepted timestamps: within 30 s of the clock, counted modulo 2^64, and the single
   timestamp half the range away, whose distance the negation cannot represent.
   */
  predicate InWindow(ts: int, now: int)
  {
    now >= 0 &&
    (-WINDOW <= ts - now <= WINDOW || -WINDOW <= ts - TWO64 - now <= WINDOW || ts - now == TWO63)
  }

  /** Timestamps whose accepting clock readings all lie within one window. */
  predicate SingleWindow(ts: int)
  {
    ts < TWO63 || TWO63 + WINDOW <= ts < TWO64 - WINDOW
  }

  lemma {:induction false} WindowIsShort(ts: int, now: int, later: int)
    requires 0 <= ts < TWO64 && SingleWindow(ts) && now <= later < TWO63
    requires InWindow(ts, now) && InWindow(ts, later)
    ensures later <= now + CACHE_TTL
  {
  }

  // ---- runs of the gate ----

  /** What the gate reads out of a first handshake frame. */
  function GateInput(c: Crypto, f: Frame): (r: Option<(Key, nat)>)
    ensures r.Some? ==> r.value.1 < TWO64
  {
    PowFacts();
    if f.typ == FRAME_HELLO then
      match DecodeHello(f.body)
      case Some(h) => Some((Key(h.clientId, h.random), h.timestamp))
      case None => None
    else if f.typ == FRAME_HELLO_PSK then
      match DecodeHelloPsk(f.body)
      case Some(h) => Some((Key(c.hash(h.pskId), h.random), h.timestamp))
      case None => None
    else None
  }

  datatype Op = Gate(frame: Frame, now: int) | Add(key: Key, at: int) | Sweep(when: int)

  function Time(op: Op): int
  {
    match op case Gate(_, t) => t case Add(_, t) => t case Sweep(t) => t
  }

  /** The key an operation offers to the cache, if it gets that far. */
  function Offer(c: Crypto, op: Op): Option<Key>
  {
    match op
    case Gate(f, now) =>
      var g := GateInput(c, f);
      if g.Some? && InWindow(g.value.1, now) then Some(g.value.0) else None
    case Add(k, _) => Some(k)
    case Sweep(_) => None
  }

  /** The cache after an operation, and whether the offered key was let in. */
  function Do(c: Crypto, s: Cache, op: Op): (Cache, bool)
  {
    match Offer(c, op)
    case Some(k) => var (t, refused) := SeenOrAddS(s, k, Time(op)); (t, !refused)
    case None => (if op.Sweep? then Rotate(s, Time(op)) else s, false)
  }

  function After(c: Crypto, s: Cache, ops: seq<Op>): Cache
    decreases |ops|
  {
    if ops == [] then s else Do(c, After(c, s, ops[..|ops| - 1]), ops[|ops| - 1]).0
  }

  predicate Admits(c: Crypto, s: Cache, ops: seq<Op>, i: nat)
    requires i < |ops|
  {
    Do(c, After(c, s, ops[..i]), ops[i]).1
  }

  /** Clock readings never go back, and start no earlier than the cache. */
  predicate Clocked(ops: seq<Op>, start: int)
  {
    && (forall i :: 0 <= i < |ops| ==> start <= Time(ops[i]))
    && (forall i, j :: 0 <= i <= j < |ops| ==> Time(ops[i]) <= Time(ops[j]))
  }

  // ---- the plain log the cache stands for ----

  datatype Entry = Entry(key: Key, at: int)

  function Log(c: Crypto, s: Cache, ops: seq<Op>): seq<Entry>
    decreases |ops|
  {
    if ops == [] then []
    else
      var n := |ops| - 1;
      Log(c, s, ops[..n]) +
        (if Admits(c, s, ops, n) then [Entry(Offer(c, ops[n]).value, Time(ops[n]))] else [])
  }

  predicate Remembers(s: Cache, e: Entry)
  {
    && e.at < s.frozenAt + s.ttl
    && (e.key in s.active || (e.key in s.frozen && e.at < s.frozenAt) || e.at + s.ttl < s.frozenAt)
  }

  predicate Logged(log: seq<Entry>, k: Key)
  {
    exists i :: 0 <= i < |log| && log[i].key == k
  }

  /** The cache agrees with the log. */
  predicate Refines(s: Cache, log: seq<Entry>)
  {
    && s.ttl > 0
    && |s.active| <= s.maxLen && |s.frozen| <= s.maxLen
    && (forall e :: e in log ==> Remembers(s, e))
    && (forall k :: k in s.active + s.frozen ==> Logged(log, k))
  }

  lemma {:induction false} RotateRefines(s: Cache, log: seq<Entry>, now: int)
    requires Refines(s, log)
    ensures Refines(Rotate(s, now), log) && now < Rotate(s, now).frozenAt + s.ttl
  {
    hide Logged;
    forall e | e in log
      ensures Remembers(Rotate(s, now), e)
    {
      assert Remembers(s, e);
    }
  }

  lemma {:induction false} AddRefines(s: Cache, log: seq<Entry>, k: Key, now: int)
    requires Refines(s, log) && now < s.frozenAt + s.ttl && |s.active| < s.maxLen
    ensures Refines(s.(active := s.active + {k}), log + [Entry(k, now)])
  {
    var t, more := s.(active := s.active + {k}), log + [Entry(k, now)];
    forall e | e in more
      ensures Remembers(t, e)
    {
      if e in log {
        assert Remembers(s, e);
      }
    }
    forall x | x in t.active + t.frozen
      ensures Logged(more, x)
    {
      if x == k {
        assert more[|log|].key == k;
      } else {
        assert x in s.active + s.frozen && Logged(log, x);
        var i :| 0 <= i < |log| && log[i].key == x;
        assert more[i].key == x;
      }
    }
  }

  /** Under any mix of operations the cache keeps standing for the log. */
  lemma {:induction false} RunRefines(c: Crypto, s: Cache, ops: seq<Op>)
    requires Refines(s, [])
    ensures Refines(After(c, s, ops), Log(c, s, ops))
    ensures After(c, s, ops).ttl == s.ttl && After(c, s, ops).maxLen == s.maxLen
    decreases |ops|
  {
    hide Refines, Offer;
    if ops != [] {
      var n := |ops| - 1;
      var t, log, op := After(c, s, ops[..n]), Log(c, s, ops[..n]), ops[n];
      RunRefines(c, s, ops[..n]);
      assert log + [] == log;
      RotateRefines(t, log, Time(op));
      if Admits(c, s, ops, n) {
        AddRefines(Rotate(t, Time(op)), log, Offer(c, op).value, Time(op));
      }
    }
  }

  /** An admitted key is in the log of every longer run. */
  lemma {:induction false} AdmittedLogged(c: Crypto, s: Cache, ops: seq<Op>, i: nat, n: nat)
    requires i < n <= |ops| && Admits(c, s, ops, i)
    ensures Entry(Offer(c, ops[i]).value, Time(ops[i])) in Log(c, s, ops[..n])
    decreases n
  {
    hide Do, Offer;
    var p := ops[..n];
    assert p[..n - 1] == ops[..n - 1] && p[n - 1] == ops[n - 1];
    if i == n - 1 {
      assert Admits(c, s, p, n - 1);
    } else {
      AdmittedLogged(c, s, ops, i, n - 1);
    }
  }

  /** Everything in the log was admitted at its time. */
  lemma {:induction false} LoggedAdmitted(c: Crypto, s: Cache, ops: seq<Op>, n: nat, e: Entry) returns (i: nat)
    requires n <= |ops| && e in Log(c, s, ops[..n])
    ensures i < n && Admits(c, s, ops, i) && e == Entry(Offer(c, ops[i]).value, Time(ops[i]))
    decreases n
  {
    hide Do, Offer;
    var p := ops[..n];
    assert p[..n - 1] == ops[..n - 1] && p[n - 1] == ops[n - 1];
    if e in Log(c, s, ops[..n - 1]) {
      i := LoggedAdmitted(c, s, ops, n - 1, e);
    } else {
      i := n - 1;
      assert Admits(c, s, p, n - 1);
    }
  }

  /**
   A key let in at time t is refused by every later operation up to and including t + ttl.
   */
  lemma {:induction false} RememberedForTtl(c: Crypto, s: Cache, ops: seq<Op>, i: nat, j: nat)
    requires Refines(s, []) && Clocked(ops, s.frozenAt) && i < j < |ops|
    requires Admits(c, s, ops, i) && Offer(c, ops[j]) == Offer(c, ops[i])
    requires Time(ops[j]) <= Time(ops[i]) + s.ttl
    ensures !Admits(c, s, ops, j)
  {
    hide Offer, Clocked;
    var t, log := After(c, s, ops[..j]), Log(c, s, ops[..j]);
    RunRefines(c, s, ops[..j]);
    AdmittedLogged(c, s, ops, i, j);
    var e := Entry(Offer(c, ops[i]).value, Time(ops[i]));
    RotateRefines(t, log, Time(ops[j]));
    var r := Rotate(t, Time(ops[j]));
    RotateLate(c, s, ops, j);
    assert Remembers(r, e);
  }

  /** Rotation never dates the frozen generation after the clock. */
  lemma {:induction false} RotateLate(c: Crypto, s: Cache, ops: seq<Op>, j: nat)
    requires Clocked(ops, s.frozenAt) && j < |ops|
    ensures Rotate(After(c, s, ops[..j]), Time(ops[j])).frozenAt <= Time(ops[j])
    decreases j
  {
    hide Offer;
    assert s.frozenAt <= Time(ops[j]);
    if j > 0 {
      var p := ops[..j];
      assert p[..j - 1] == ops[..j - 1] && p[j - 1] == ops[j - 1];
      assert Time(ops[j - 1]) <= Time(ops[j]);
      RotateLate(c, s, ops, j - 1);
      FrozenBy(c, After(c, s, ops[..j - 1]), ops[j - 1], s.frozenAt);
    }
  }

  lemma {:induction false} FrozenBy(c: Crypto, s: Cache, op: Op, start: int)
    ensures Do(c, s, op).0.frozenAt == s.frozenAt || Do(c, s, op).0.frozenAt == Rotate(s, Time(op)).frozenAt
  {
    hide Offer;
  }

  /** A refused offer was let in before, or the generation is full; and no generation exceeds its cap. */
  lemma {:induction false} RefusalExplained(c: Crypto, s: Cache, ops: seq<Op>, j: nat)
    requires Refines(s, []) && j < |ops| && Offer(c, ops[j]).Some? && !Admits(c, s, ops, j)
    ensures
      || (exists i :: 0 <= i < j && Admits(c, s, ops, i) && Offer(c, ops[i]) == Offer(c, ops[j]))
      || |Rotate(After(c, s, ops[..j]), Time(ops[j])).active| == s.maxLen
  {
    hide Offer;
    var t, log := After(c, s, ops[..j]), Log(c, s, ops[..j]);
    RunRefines(c, s, ops[..j]);
    RotateRefines(t, log, Time(ops[j]));
    var r, k := Rotate(t, Time(ops[j])), Offer(c, ops[j]).value;
    if k in r.frozen || k in r.active {
      assert Logged(log, k);
      var x :| 0 <= x < |log| && log[x].key == k;
      var i := LoggedAdmitted(c, s, ops, j, log[x]);
      OfferOfAdmitted(c, s, ops, i);
    }
  }

  lemma {:induction false} OfferOfAdmitted(c: Crypto, s: Cache, ops: seq<Op>, i: nat)
    requires i < |ops| && Admits(c, s, ops, i)
    ensures Offer(c, ops[i]).Some?
  {
    hide Offer;
  }

  lemma {:induction false} GenerationsBounded(c: Crypto, s: Cache, ops: seq<Op>)
    requires Refines(s, [])
    ensures |After(c, s, ops).active| <= s.maxLen && |After(c, s, ops).frozen| <= s.maxLen
  {
    RunRefines(c, s, ops);
  }

  // ---- no first frame is let in twice ----

  function Fresh(start: int): Cache
  {
    Cache({}, {}, start, CACHE_TTL, CACHE_CAP)
  }

  /** The gate lets the same first frame through at two points of the run. */
  predicate PassesTwice(c: Crypto, start: int, ops: seq<Op>, f: Frame)
  {
    exists i, j :: 0 <= i < j < |ops| && Passes(c, start, ops, i, f) && Passes(c, start, ops, j, f)
  }

  predicate Passes(c: Crypto, start: int, ops: seq<Op>, i: nat, f: Frame)
    requires i < |ops|
  {
    ops[i].Gate? && ops[i].frame == f && Admits(c, Fresh(start), ops, i)
  }

  predicate Int64Clock(ops: seq<Op>)
  {
    forall i :: 0 <= i < |ops| ==> -TWO63 <= Time(ops[i]) < TWO63
  }

  /**
   The 30 s window on both sides and the 60 s memory meet exactly: with a clock that does not go
   back, no HELLO or HELLO_PSK passes the gate twice, whatever else the gate and the cache are given.
   */
  lemma {:induction false} NoFramePassesTwice(c: Crypto, start: int, ops: seq<Op>, f: Frame)
    requires Clocked(ops, start) && Int64Clock(ops)
    requires GateInput(c, f).Some? ==> SingleWindow(GateInput(c, f).value.1)
    ensures !PassesTwice(c, start, ops, f)
  {
    hide Clocked, GateInput, Admits, SingleWindow, InWindow;
    FreshRefines(start);
    forall i, j | 0 <= i < j < |ops| && Passes(c, start, ops, i, f)
      ensures !Passes(c, start, ops, j, f)
    {
      if Passes(c, start, ops, j, f) {
        OfferOfAdmitted(c, Fresh(start), ops, j);
        NotTwice(c, start, ops, i, j, f);
      }
    }
  }

  lemma {:induction false} FreshRefines(start: int)
    ensures Refines(Fresh(start), [])
  {
  }

  lemma {:induction false} NotTwice(c: Crypto, start: int, ops: seq<Op>, i: nat, j: nat, f: Frame)
    requires Clocked(ops, start) && Int64Clock(ops) && i < j < |ops|
    requires GateInput(c, f).Some? ==> SingleWindow(GateInput(c, f).value.1)
    requires Passes(c, start, ops, i, f)
    requires ops[j].Gate? && ops[j].frame == f && Offer(c, ops[j]).Some?
    ensures !Admits(c, Fresh(start), ops, j)
  {
    hide GateInput, Admits, SingleWindow, InWindow;
    FreshRefines(start);
    OfferOfAdmitted(c, Fresh(start), ops, i);
    var ts := GateInput(c, f).value.1;
    WindowIsShort(ts, Time(ops[i]), Time(ops[j]));
    RememberedForTtl(c, Fresh(start), ops, i, j);
  }

  // ---- and exactly for which timestamps ----

  /** Two clock readings, half the 64-bit range apart, that both accept a wrapped timestamp. */
  function WrappedRun(ts: int, f: Frame): (int, seq<Op>)
  {
    var first := if ts < TWO63 + WINDOW then ts - TWO63 else 0;
    var last := if ts < TWO63 + WINDOW then TWO63 - 1 else ts - TWO63;
    (first, [Gate(f, first), Sweep(first + CACHE_TTL), Gate(f, last)])
  }

  lemma {:induction false} WrappedPassesTwice(c: Crypto, f: Frame)
    requires GateInput(c, f).Some? && !SingleWindow(GateInput(c, f).value.1)
    ensures var (start, ops) := WrappedRun(GateInput(c, f).value.1, f);
      Clocked(ops, start) && Int64Clock(ops) && PassesTwice(c, start, ops, f)
  {
    hide GateInput;
    var (k, ts) := GateInput(c, f).value;
    var (start, ops) := WrappedRun(ts, f);
    assert TWO64 == 2 * TWO63 && TWO63 > 4 * CACHE_TTL;
    var s0 := Fresh(start);
    assert ops[..0] == [] && ops[..1] == [ops[0]] && ops[..2] == [ops[0], ops[1]];
    assert Passes(c, start, ops, 0, f);
    var s1 := After(c, s0, ops[..1]);
    assert s1 == s0.(active := {k}) by { OneAfter(c, s0, ops[0]); }
    var s2 := After(c, s0, ops[..2]);
    assert s2 == s0.(active := {}, frozen := {k}, frozenAt := start + CACHE_TTL) by {
      assert ops[..2][..1] == ops[..1];
    }
    assert Passes(c, start, ops, 2, f);
  }

  lemma {:induction false} OneAfter(c: Crypto, s: Cache, op: Op)
    ensures After(c, s, [op]) == Do(c, s, op).0
  {
    hide Do;
    assert [op][..0] == [];
  }

  /** A first frame is safe from passing twice, in all runs, if and only if its timestamp does not wrap. */
  lemma {:induction false} PassesOnceIffUnwrapped(c: Crypto, f: Frame)
    requires GateInput(c, f).Some?
    ensures SingleWindow(GateInput(c, f).value.1) <==>
      forall start, ops :: Clocked(ops, start) && Int64Clock(ops) ==> !PassesTwice(c, start, ops, f)
  {
    hide Clocked, Int64Clock, PassesTwice, GateInput, SingleWindow;
    if SingleWindow(GateInput(c, f).value.1) {
      forall start, ops | Clocked(ops, start) && Int64Clock(ops)
        ensures !PassesTwice(c, start, ops, f)
      {
        NoFramePassesTwice(c, start, ops, f);
      }
    } else {
      WrappedPassesTwice(c, f);
      var (start, ops) := WrappedRun(GateInput(c, f).value.1, f);
      assert PassesTwice(c, start, ops, f);
    }
  }

  // ---- forgetting ----

  /** The operation looks at the cache, and so rotates it when that is due. */
  predicate Looks(c: Crypto, op: Op)
  {
    Offer(c, op).Some? || op.Sweep?
  }

  /** No operation from lo on, before hi, lets the key in. */
  predicate NotAgain(c: Crypto, s: Cache, ops: seq<Op>, k: Key, lo: nat, hi: nat)
    requires hi <= |ops|
  {
    forall m :: lo <= m < hi && Offer(c, ops[m]) == Some(k) ==> !Admits(c, s, ops, m)
  }

  /** One operation moves the generations on, or leaves them, but for the key it lets in. */
  lemma {:induction false} DoMoves(c: Crypto, t: Cache, op: Op, k: Key)
    requires Offer(c, op) == Some(k) ==> !Do(c, t, op).1
    ensures var u := Do(c, t, op).0;
      && u.ttl == t.ttl && u.maxLen == t.maxLen
      && (if Looks(c, op) && Time(op) - t.frozenAt >= t.ttl
          then k !in u.active && (k in u.frozen ==> k in t.active) && u.frozenAt == Time(op)
          else (k in u.active ==> k in t.active) && u.frozen == t.frozen && u.frozenAt == t.frozenAt)
  {
    hide Offer;
  }

  lemma {:induction false} AfterNext(c: Crypto, s: Cache, ops: seq<Op>, n: nat)
    requires n < |ops|
    ensures After(c, s, ops[..n + 1]) == Do(c, After(c, s, ops[..n]), ops[n]).0
  {
    hide Do;
    assert ops[..n + 1][..n] == ops[..n];
  }

  /** The frozen generation is no younger than the last operation. */
  lemma {:induction false} FrozenPast(c: Crypto, s: Cache, ops: seq<Op>, n: nat)
    requires Clocked(ops, s.frozenAt) && 0 < n <= |ops|
    ensures After(c, s, ops[..n]).frozenAt <= Time(ops[n - 1])
    decreases n
  {
    hide Offer, Do;
    AfterNext(c, s, ops, n - 1);
    FrozenBy(c, After(c, s, ops[..n - 1]), ops[n - 1], s.frozenAt);
    assert s.frozenAt <= Time(ops[n - 1]);
    if n > 1 {
      FrozenPast(c, s, ops, n - 1);
      assert Time(ops[n - 2]) <= Time(ops[n - 1]);
    }
  }

  lemma {:induction false} TtlKept(c: Crypto, s: Cache, ops: seq<Op>)
    ensures After(c, s, ops).ttl == s.ttl && After(c, s, ops).maxLen == s.maxLen
    decreases |ops|
  {
    hide Offer;
    if ops != [] {
      TtlKept(c, s, ops[..|ops| - 1]);
    }
  }

  /** While the key is young, it is young since it was let in. */
  lemma {:induction false} YoungSince(c: Crypto, s: Cache, ops: seq<Op>, k: Key, i: nat, n: nat)
    requires Clocked(ops, s.frozenAt) && i < n <= |ops| && NotAgain(c, s, ops, k, i + 1, n)
    requires k in After(c, s, ops[..n]).active
    ensures After(c, s, ops[..n]).frozenAt <= Time(ops[i])
    decreases n
  {
    hide Offer, Do, After;
    if n == i + 1 {
      FrozenPast(c, s, ops, n);
    } else {
      AfterNext(c, s, ops, n - 1);
      assert Offer(c, ops[n - 1]) == Some(k) ==> !Admits(c, s, ops, n - 1);
      DoMoves(c, After(c, s, ops[..n - 1]), ops[n - 1], k);
      YoungSince(c, s, ops, k, i, n - 1);
    }
  }

  /** After a look a lifetime later it is old, and since before that look. */
  lemma {:induction false} OldSince(c: Crypto, s: Cache, ops: seq<Op>, k: Key, i: nat, x: nat, n: nat)
    requires Clocked(ops, s.frozenAt) && i < x < n <= |ops| && NotAgain(c, s, ops, k, i + 1, n)
    requires Looks(c, ops[x]) && Time(ops[x]) >= Time(ops[i]) + s.ttl
    ensures var t := After(c, s, ops[..n]); k !in t.active && (k in t.frozen ==> t.frozenAt <= Time(ops[x]))
    decreases n
  {
    hide Offer, Do, After, Looks;
    var t := After(c, s, ops[..n - 1]);
    AfterNext(c, s, ops, n - 1);
    assert Offer(c, ops[n - 1]) == Some(k) ==> !Admits(c, s, ops, n - 1);
    DoMoves(c, t, ops[n - 1], k);
    TtlKept(c, s, ops[..n - 1]);
    if n == x + 1 {
      FrozenPast(c, s, ops, n);
      if k in t.active {
        YoungSince(c, s, ops, k, i, n - 1);
      }
    } else {
      OldSince(c, s, ops, k, i, x, n - 1);
    }
  }

  /** And after another it is forgotten. */
  lemma {:induction false} Forgotten(c: Crypto, s: Cache, ops: seq<Op>, k: Key, i: nat, x: nat, y: nat, n: nat)
    requires Clocked(ops, s.frozenAt) && i < x < y < n <= |ops| && NotAgain(c, s, ops, k, i + 1, n)
    requires Looks(c, ops[x]) && Time(ops[x]) >= Time(ops[i]) + s.ttl
    requires Looks(c, ops[y]) && Time(ops[y]) >= Time(ops[x]) + s.ttl
    ensures var t := After(c, s, ops[..n]); k !in t.active && k !in t.frozen
    decreases n
  {
    hide Offer, Do, After, Looks;
    var t := After(c, s, ops[..n - 1]);
    AfterNext(c, s, ops, n - 1);
    assert Offer(c, ops[n - 1]) == Some(k) ==> !Admits(c, s, ops, n - 1);
    DoMoves(c, t, ops[n - 1], k);
    TtlKept(c, s, ops[..n - 1]);
    OldSince(c, s, ops, k, i, x, n - 1);
    if n > y + 1 {
      Forgotten(c, s, ops, k, i, x, y, n - 1);
    }
  }

  /**
   A key is not refused for ever: once the cache has been looked at a lifetime after the key was let in,
   and again a lifetime after that, the key is let in again if there is room.
   */
  lemma {:induction false} ForgottenAfterTwo(c: Crypto, s: Cache, ops: seq<Op>, i: nat, x: nat, y: nat, j: nat)
    requires Clocked(ops, s.frozenAt) && i < x < y < j < |ops| && Offer(c, ops[j]).Some?
    requires NotAgain(c, s, ops, Offer(c, ops[j]).value, i + 1, j)
    requires Looks(c, ops[x]) && Time(ops[x]) >= Time(ops[i]) + s.ttl
    requires Looks(c, ops[y]) && Time(ops[y]) >= Time(ops[x]) + s.ttl
    requires |Rotate(After(c, s, ops[..j]), Time(ops[j])).active| < s.maxLen
    ensures Admits(c, s, ops, j)
  {
    hide Offer, After, Looks;
    Forgotten(c, s, ops, Offer(c, ops[j]).value, i, x, y, j);
    TtlKept(c, s, ops[..j]);
  }
}
