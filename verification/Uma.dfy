/**
 The unified-memory slab allocator: budget accounting and pointer ownership. A critical section is one
 step; so is each load and store of a buffer's fields, which no lock guards.
 */
module Uma {
  import opened ByteStrings

  const SIZES: seq<nat> := [256, 1024, 4096, 16384, 65536, 1048576]

  /** The smallest class that fits, or -1. */
  method ClassFor(size: int) returns (r: int)
    ensures -1 <= r < |SIZES|
    ensures r == -1 ==> forall i :: 0 <= i < |SIZES| ==> SIZES[i] < size
    ensures r >= 0 ==> SIZES[r] >= size && forall i :: 0 <= i < r ==> SIZES[i] < size
  {
    for i := 0 to |SIZES|
      invariant forall k :: 0 <= k < i ==> SIZES[k] < size
    {
      if SIZES[i] >= size {
        return i;
      }
    }
    return -1;
  }

  /** One class: its free list and its diagnostic count of buffers handed out. */
  datatype Slab = Slab(size: nat, free: seq<nat>, totalOut: int)

  /**
   A buffer handed to a caller: the pointer it was made with, whether its field still holds that pointer,
   its slab size, 0 for one allocated outside the pool, and its released flag. The rest count Release
   calls: those that found it unreleased, and of these, those that have not yet set the flag, have set
   it, have found the field set, have loaded it, have given the pointer back, have cleared the field.
   */
  datatype Buffer = Buffer(p: nat, holds: bool, slabSize: nat, released: bool,
                           passes: nat, tested: nat, marked: nat, checked: nat, taken: nat, back: nat, done: nat)

  function Fresh(p: nat, slabSize: nat): Buffer
  {
    Buffer(p, true, slabSize, false, 0, 0, 0, 0, 0, 0, 0)
  }

  /** No Release has given the pointer back. */
  predicate Held(b: Buffer)
  {
    b.back == 0 && b.done == 0
  }

  /** Where a thread is inside alloc; `i` is the class. */
  datatype Job = Idle | Missed(i: nat) | Reserved(i: nat) | RollingBack(i: nat) | Allocated(i: nat, p: nat)

  /**
   `live` is what the CUDA runtime has allocated and not freed. `fault` is set for good when a nil pointer
   is given back, or the runtime is asked to free what is not allocated.
   */
  datatype State = State(
    used: int, cap: nat, slabs: seq<Slab>, bufs: seq<Buffer>, jobs: seq<Job>, live: set<nat>, fault: bool)

  function Start(cap: nat, threads: nat): State
  {
    State(0, cap, seq(|SIZES|, i requires 0 <= i < |SIZES| => Slab(SIZES[i], [], 0)), [], seq(threads, _ => Idle), {},
          false)
  }

  // ---- steps ----

  datatype Step =
      GetFree(t: nat, i: nat)
    | GetMiss(t: nat, i: nat)
    | Reserve(t: nat)
    | Cuda(t: nat, result: Option<nat>)
    | RollBack(t: nat)
    | HandOut(t: nat)
    | ColdAlloc(p: nat)
    | Test(b: nat)
    | Mark(b: nat)
    | Check(b: nat)
    | Take(b: nat)
    | PutBack(b: nat)
    | Clear(b: nat)

  function SetJob(s: State, t: nat, j: Job): State
    requires t < |s.jobs|
  {
    s.(jobs := s.jobs[t := j])
  }

  /** Take the last free pointer, or note that there is none. */
  function GetFreeS(s: State, t: nat, i: nat): State
  {
    if t >= |s.jobs| || s.jobs[t] != Idle || i >= |s.slabs| || s.slabs[i].free == [] then s
    else
      var b := s.slabs[i];
      var n := |b.free| - 1;
      s.(slabs := s.slabs[i := b.(free := b.free[..n], totalOut := b.totalOut + 1)],
         bufs := s.bufs + [Fresh(b.free[n], b.size)])
  }

  function ReserveS(s: State, t: nat): State
  {
    if t >= |s.jobs| || !s.jobs[t].Missed? || s.jobs[t].i >= |s.slabs| then s
    else
      var size := s.slabs[s.jobs[t].i].size;
      if s.used + size > s.cap && s.cap > 0 then SetJob(s, t, Idle)
      else SetJob(s, t, Reserved(s.jobs[t].i)).(used := s.used + size)
  }

  /** The runtime fails, or returns a pointer not currently allocated. */
  function CudaS(s: State, t: nat, result: Option<nat>): State
  {
    if t >= |s.jobs| || !s.jobs[t].Reserved? then s
    else
      match result
      case None => SetJob(s, t, RollingBack(s.jobs[t].i))
      case Some(p) =>
        if p in s.live then s else SetJob(s, t, Allocated(s.jobs[t].i, p)).(live := s.live + {p})
  }

  function RollBackS(s: State, t: nat): State
  {
    if t >= |s.jobs| || !s.jobs[t].RollingBack? || s.jobs[t].i >= |s.slabs| then s
    else SetJob(s, t, Idle).(used := s.used - s.slabs[s.jobs[t].i].size)
  }

  function HandOutS(s: State, t: nat): State
  {
    if t >= |s.jobs| || !s.jobs[t].Allocated? || s.jobs[t].i >= |s.slabs| then s
    else
      var j := s.jobs[t];
      var b := s.slabs[j.i];
      SetJob(s, t, Idle).(slabs := s.slabs[j.i := b.(totalOut := b.totalOut + 1)],
                          bufs := s.bufs + [Fresh(j.p, b.size)])
  }

  /** The slab whose size is the buffer's. */
  function FindSlab(slabs: seq<Slab>, size: nat): (i: nat)
    ensures i <= |slabs|
    ensures i < |slabs| ==> slabs[i].size == size && forall k :: 0 <= k < i ==> slabs[k].size != size
    ensures i == |slabs| ==> forall k :: 0 <= k < |slabs| ==> slabs[k].size != size
    decreases |slabs|
  {
    if slabs == [] then 0
    else
      var r := FindSlab(slabs[..|slabs| - 1], size);
      if r < |slabs| - 1 then r else if slabs[|slabs| - 1].size == size then r else |slabs|
  }

  function SetBuf(s: State, b: nat, u: Buffer): State
    requires b < |s.bufs|
  {
    s.(bufs := s.bufs[b := u])
  }

  /** Release: return if the flag is set, else set it. */
  function TestS(s: State, b: nat): State
  {
    if b >= |s.bufs| || s.bufs[b].released then s
    else SetBuf(s, b, s.bufs[b].(passes := s.bufs[b].passes + 1, tested := s.bufs[b].tested + 1))
  }

  function MarkS(s: State, b: nat): State
  {
    if b >= |s.bufs| || s.bufs[b].tested == 0 then s
    else SetBuf(s, b, s.bufs[b].(released := true, tested := s.bufs[b].tested - 1, marked := s.bufs[b].marked + 1))
  }

  /** pool.release: return if the pointer field is nil. */
  function CheckS(s: State, b: nat): State
  {
    if b >= |s.bufs| || s.bufs[b].marked == 0 then s
    else
      var u := s.bufs[b].(marked := s.bufs[b].marked - 1);
      SetBuf(s, b, if u.holds then u.(checked := u.checked + 1) else u)
  }

  /** The field is loaded again, to be given back. */
  function TakeS(s: State, b: nat): State
  {
    if b >= |s.bufs| || s.bufs[b].checked == 0 then s
    else
      var u := s.bufs[b].(checked := s.bufs[b].checked - 1);
      if u.holds then SetBuf(s, b, u.(taken := u.taken + 1)) else SetBuf(s, b, u).(fault := true)
  }

  /** The pointer goes to its slab, or to the runtime when it was never pooled. */
  function PutBackS(s: State, b: nat): State
  {
    if b >= |s.bufs| || s.bufs[b].taken == 0 then s
    else
      var u := s.bufs[b];
      var t := SetBuf(s, b, u.(taken := u.taken - 1, back := u.back + 1));
      if u.slabSize == 0 then
        if u.p in s.live then t.(live := s.live - {u.p}) else t.(fault := true)
      else
        var i := FindSlab(s.slabs, u.slabSize);
        if i == |s.slabs| then t
        else
          var c := s.slabs[i];
          t.(slabs := s.slabs[i := c.(free := c.free + [u.p], totalOut := c.totalOut - 1)])
  }

  function ClearS(s: State, b: nat): State
  {
    if b >= |s.bufs| || s.bufs[b].back == 0 then s
    else SetBuf(s, b, s.bufs[b].(holds := false, back := s.bufs[b].back - 1, done := s.bufs[b].done + 1))
  }

  function Next(s: State, step: Step): State
  {
    match step
    case GetFree(t, i) => GetFreeS(s, t, i)
    case GetMiss(t, i) =>
      if t >= |s.jobs| || s.jobs[t] != Idle || i >= |s.slabs| || s.slabs[i].free != [] then s
      else SetJob(s, t, Missed(i))
    case Reserve(t) => ReserveS(s, t)
    case Cuda(t, r) => CudaS(s, t, r)
    case RollBack(t) => RollBackS(s, t)
    case HandOut(t) => HandOutS(s, t)
    case ColdAlloc(p) =>
      if p in s.live then s else s.(live := s.live + {p}, bufs := s.bufs + [Fresh(p, 0)])
    case Test(b) => TestS(s, b)
    case Mark(b) => MarkS(s, b)
    case Check(b) => CheckS(s, b)
    case Take(b) => TakeS(s, b)
    case PutBack(b) => PutBackS(s, b)
    case Clear(b) => ClearS(s, b)
  }

  function Run(s: State, steps: seq<Step>): State
    decreases |steps|
  {
    if steps == [] then s else Run(Next(s, steps[0]), steps[1..])
  }

  // ---- the allocator object: one thread's path through the critical sections ----

  class Pool {
    const cap: nat
    var used: int
    var slabs: seq<Slab>
    var bufs: seq<Buffer>
    ghost var jobs: seq<Job>
    ghost var live: set<nat>
    ghost var fault: bool

    ghost function View(): State
      reads this
    {
      State(used, cap, slabs, bufs, jobs, live, fault)
    }

    constructor (cap: nat, ghost threads: nat)
      ensures View() == Start(cap, threads)
    {
      this.cap, used, bufs := cap, 0, [];
      slabs := seq(|SIZES|, i requires 0 <= i < |SIZES| => Slab(SIZES[i], [], 0));
      jobs, live, fault := seq(threads, _ => Idle), {}, false;
    }

    /** alloc: from the smallest class that fits, or from the runtime when none does. */
    method Alloc(ghost t: nat, size: int, cuda: Option<nat>) returns (r: Option<nat>, ghost steps: seq<Step>)
      requires t < |jobs| && jobs[t] == Idle && Shaped(View()) && (cuda.Some? ==> cuda.value !in live)
      modifies this
      ensures View() == Run(old(View()), steps) && jobs == old(jobs)
      ensures size <= 0 ==> r.None? && View() == old(View())
      ensures r.None? ==> bufs == old(bufs) && used == old(used) && slabs == old(slabs)
      ensures size > 1048576 ==> (r.None? <==> cuda.None?) && used == old(used)
      ensures r.Some? ==>
        && r.value == old(|bufs|) && |bufs| == r.value + 1 && Held(bufs[r.value])
        && (if size > 1048576 then bufs[r.value].slabSize == 0
            else size <= bufs[r.value].slabSize && bufs[r.value].slabSize in SIZES
                 && forall k :: 0 <= k < |SIZES| && size <= SIZES[k] ==> bufs[r.value].slabSize <= SIZES[k])
    {
      hide Run;
      if size <= 0 {
        assert Run(View(), []) == View() by { RunNone(View()); }
        return None, [];
      }
      var i := ClassFor(size);
      if i >= 0 {
        assert slabs[i].size == SIZES[i] && SIZES[i] in SIZES;
        r, steps := Get(t, i, cuda);
        return;
      }
      assert SIZES[5] < size;
      if cuda.None? {
        assert Run(View(), []) == View() by { RunNone(View()); }
        return None, [];
      }
      steps := [ColdAlloc(cuda.value)];
      RunOne(View(), steps[0]);
      live := live + {cuda.value};
      r := Some(|bufs|);
      bufs := bufs + [Fresh(cuda.value, 0)];
    }

    /** get: a free pointer if there is one. */
    method Get(ghost t: nat, i: nat, cuda: Option<nat>) returns (r: Option<nat>, ghost steps: seq<Step>)
      requires t < |jobs| && jobs[t] == Idle && i < |slabs| && (cuda.Some? ==> cuda.value !in live)
      modifies this
      ensures View() == Run(old(View()), steps) && jobs == old(jobs)
      ensures r.Some? ==> r.value == old(|bufs|) && |bufs| == r.value + 1 && Held(bufs[r.value])
      ensures r.None? ==> bufs == old(bufs) && used == old(used) && slabs == old(slabs)
      ensures r.Some? ==> bufs[r.value].slabSize == old(slabs[i].size)
      ensures r.Some? && old(slabs[i].free) != [] ==>
        bufs[r.value].p == old(slabs[i].free)[old(|slabs[i].free|) - 1] && used == old(used)
      ensures r.None? <==> old(slabs[i].free) == [] && (cuda.None? || (cap > 0 && old(used) + old(slabs[i].size) > cap))
    {
      ghost var s := View();
      var b := slabs[i];
      var n := |b.free|;
      if n == 0 {
        r, steps := Grow(t, i, cuda);
        return;
      }
      slabs := slabs[i := b.(free := b.free[..n - 1], totalOut := b.totalOut + 1)];
      r := Some(|bufs|);
      bufs := bufs + [Fresh(b.free[n - 1], b.size)];
      steps := [GetFree(t, i)];
      RunOne(s, steps[0]);
    }

    /** The free list was empty: reserve within the budget, allocate, roll back when that fails. */
    method Grow(ghost t: nat, i: nat, cuda: Option<nat>) returns (r: Option<nat>, ghost steps: seq<Step>)
      requires t < |jobs| && jobs[t] == Idle && i < |slabs| && slabs[i].free == []
      requires cuda.Some? ==> cuda.value !in live
      modifies this
      ensures View() == Run(old(View()), steps) && jobs == old(jobs)
      ensures r.Some? ==> r.value == old(|bufs|) && |bufs| == r.value + 1 && Held(bufs[r.value])
      ensures r.Some? ==> cuda == Some(bufs[r.value].p) && bufs[r.value].slabSize == old(slabs[i].size)
      ensures r.None? ==> bufs == old(bufs) && used == old(used) && slabs == old(slabs)
      ensures r.None? <==> cuda.None? || (cap > 0 && old(used) + old(slabs[i].size) > cap)
    {
      hide Run, Next;
      ghost var s := View();
      var b := slabs[i];
      MissAndReserve(s, t, i);
      if used + b.size > cap && cap > 0 {
        return None, [GetMiss(t, i), Reserve(t)];
      }
      used := used + b.size;
      ghost var s2 := SetJob(View(), t, Reserved(i));
      AllocateOrRollBack(s2, t, cuda);
      steps := [GetMiss(t, i), Reserve(t)] + [Cuda(t, cuda), if cuda.None? then RollBack(t) else HandOut(t)];
      RunConcat(s, [GetMiss(t, i), Reserve(t)], [Cuda(t, cuda), if cuda.None? then RollBack(t) else HandOut(t)]);
      assert s2.jobs[t := Idle] == jobs;
      if cuda.None? {
        used := used - b.size;
        return None, steps;
      }
      live := live + {cuda.value};
      slabs := slabs[i := b.(totalOut := b.totalOut + 1)];
      r := Some(|bufs|);
      bufs := bufs + [Fresh(cuda.value, b.size)];
    }

    /** Release by one thread, uninterrupted: nothing if the buffer was released, else its pointer goes back. */
    method Release(b: nat) returns (ghost steps: seq<Step>)
      requires b < |bufs|
      modifies this
      ensures View() == Run(old(View()), steps)
      ensures old(bufs[b].released) ==> View() == old(View())
      ensures View() == ReleaseAll(old(View()), b)
    {
      ghost var s := View();
      if bufs[b].released {
        return [];
      }
      steps := ReleaseSteps(b, bufs[b].holds);
      ReleaseRun(s, b);
      var u := bufs[b].(released := true, passes := bufs[b].passes + 1);
      if !u.holds {
        bufs := bufs[b := u];
        return;
      }
      bufs := bufs[b := u.(holds := false, done := u.done + 1)];
      if u.slabSize == 0 {
        fault, live := fault || u.p !in live, live - {u.p};
        return;
      }
      for i := 0 to |slabs|
        invariant forall k :: 0 <= k < i ==> slabs[k].size != u.slabSize
        invariant View() == s.(bufs := s.bufs[b := u.(holds := false, done := u.done + 1)])
      {
        if slabs[i].size == u.slabSize {
          slabs := slabs[i := slabs[i].(free := slabs[i].free + [u.p], totalOut := slabs[i].totalOut - 1)];
          return;
        }
      }
    }
  }

  function ReleaseSteps(b: nat, found: bool): seq<Step>
  {
    [Test(b), Mark(b)] + if found then [Check(b), Take(b)] + [PutBack(b), Clear(b)] else [Check(b)]
  }

  /** A Release that is not interrupted, as one function of the state. */
  function ReleaseAll(s: State, b: nat): State
  {
    if b >= |s.bufs| || s.bufs[b].released then s
    else
      var u := s.bufs[b].(released := true, passes := s.bufs[b].passes + 1);
      if !u.holds then SetBuf(s, b, u)
      else
        var t := SetBuf(s, b, u.(holds := false, done := u.done + 1));
        if u.slabSize == 0 then t.(fault := s.fault || u.p !in s.live, live := s.live - {u.p})
        else
          var i := FindSlab(s.slabs, u.slabSize);
          if i == |s.slabs| then t
          else
            var c := s.slabs[i];
            t.(slabs := s.slabs[i := c.(free := c.free + [u.p], totalOut := c.totalOut - 1)])
  }

  lemma {:induction false} RunNone(s: State)
    ensures Run(s, []) == s
  {
  }

  lemma {:induction false} RunOne(s: State, a: Step)
    ensures Run(s, [a]) == Next(s, a)
  {
    hide Next;
    assert [a][1..] == [];
  }

  lemma {:induction false} RunTwo(s: State, a: Step, b: Step)
    ensures Run(s, [a, b]) == Next(Next(s, a), b)
  {
    hide Next;
    RunOne(Next(s, a), b);
    assert [a, b][1..] == [b];
  }

  lemma {:induction false} RunConcat(s: State, a: seq<Step>, b: seq<Step>)
    ensures Run(s, a + b) == Run(Run(s, a), b)
    decreases |a|
  {
    hide Next;
    if a == [] {
      assert a + b == b;
    } else {
      RunConcat(Next(s, a[0]), a[1..], b);
      assert (a + b)[1..] == a[1..] + b;
    }
  }

  lemma {:induction false} MissAndReserve(s: State, t: nat, i: nat)
    requires t < |s.jobs| && s.jobs[t] == Idle && i < |s.slabs| && s.slabs[i].free == []
    ensures Run(s, [GetMiss(t, i), Reserve(t)]) ==
      if s.used + s.slabs[i].size > s.cap && s.cap > 0 then s
      else SetJob(s, t, Reserved(i)).(used := s.used + s.slabs[i].size)
  {
    hide Run;
    RunTwo(s, GetMiss(t, i), Reserve(t));
    assert s.jobs[t := Missed(i)][t := Idle] == s.jobs;
  }

  lemma {:induction false} AllocateOrRollBack(s: State, t: nat, cuda: Option<nat>)
    requires t < |s.jobs| && s.jobs[t].Reserved? && s.jobs[t].i < |s.slabs| && (cuda.Some? ==> cuda.value !in s.live)
    ensures var (i, b) := (s.jobs[t].i, s.slabs[s.jobs[t].i]);
      Run(s, [Cuda(t, cuda), if cuda.None? then RollBack(t) else HandOut(t)]) ==
        if cuda.None? then SetJob(s, t, Idle).(used := s.used - b.size)
        else SetJob(s, t, Idle).(live := s.live + {cuda.value}, slabs := s.slabs[i := b.(totalOut := b.totalOut + 1)],
                                 bufs := s.bufs + [Fresh(cuda.value, b.size)])
  {
    hide Run;
    RunTwo(s, Cuda(t, cuda), if cuda.None? then RollBack(t) else HandOut(t));
  }

  lemma {:induction false} TestAndMark(s: State, b: nat)
    requires b < |s.bufs| && !s.bufs[b].released
    ensures var u := s.bufs[b];
      Run(s, [Test(b), Mark(b)]) ==
        SetBuf(s, b, u.(released := true, passes := u.passes + 1, marked := u.marked + 1))
  {
    hide Run;
    RunTwo(s, Test(b), Mark(b));
  }

  lemma {:induction false} CheckAndTake(s: State, b: nat)
    requires b < |s.bufs| && s.bufs[b].marked > 0 && s.bufs[b].holds
    ensures var u := s.bufs[b];
      Run(s, [Check(b), Take(b)]) == SetBuf(s, b, u.(marked := u.marked - 1, taken := u.taken + 1))
  {
    hide Run;
    RunTwo(s, Check(b), Take(b));
  }

  lemma {:induction false} ReleaseRun(s: State, b: nat)
    requires b < |s.bufs| && !s.bufs[b].released
    ensures Run(s, ReleaseSteps(b, s.bufs[b].holds)) == ReleaseAll(s, b)
  {
    hide Run, FindSlab;
    TestAndMark(s, b);
    var s2 := Run(s, [Test(b), Mark(b)]);
    if s.bufs[b].holds {
      CheckAndTake(s2, b);
      var s4 := Run(s2, [Check(b), Take(b)]);
      RunConcat(s, [Test(b), Mark(b)], [Check(b), Take(b)] + [PutBack(b), Clear(b)]);
      RunConcat(s2, [Check(b), Take(b)], [PutBack(b), Clear(b)]);
      RunTwo(s4, PutBack(b), Clear(b));
      PutAndClear(s4, b);
    } else {
      RunConcat(s, [Test(b), Mark(b)], [Check(b)]);
      RunOne(s2, Check(b));
    }
  }

  lemma {:induction false} PutAndClear(s: State, b: nat)
    requires b < |s.bufs| && s.bufs[b].taken > 0
    ensures var u := s.bufs[b].(taken := s.bufs[b].taken - 1, holds := false, done := s.bufs[b].done + 1);
      ClearS(PutBackS(s, b), b) == PutBackS(s, b).(bufs := s.bufs[b := u])
  {
  }

  // ---- sums ----

  function SlabBytes(slabs: seq<Slab>): int
    decreases |slabs|
  {
    if slabs == [] then 0
    else
      var b := slabs[|slabs| - 1];
      SlabBytes(slabs[..|slabs| - 1]) + b.size * (|b.free| + b.totalOut)
  }

  /** The bytes a thread has reserved and not yet handed out or rolled back. */
  function JobBytes(j: Job, slabs: seq<Slab>): int
  {
    if (j.Reserved? || j.RollingBack? || j.Allocated?) && j.i < |slabs| then slabs[j.i].size else 0
  }

  function InFlight(jobs: seq<Job>, slabs: seq<Slab>): int
    decreases |jobs|
  {
    if jobs == [] then 0 else InFlight(jobs[..|jobs| - 1], slabs) + JobBytes(jobs[|jobs| - 1], slabs)
  }

  /** How many buffers of this slab size callers hold. */
  function Outstanding(bufs: seq<Buffer>, size: nat): nat
    decreases |bufs|
  {
    if bufs == [] then 0 else Outstanding(bufs[..|bufs| - 1], size) + CountBuffer(bufs[|bufs| - 1], size)
  }

  function CountBuffer(b: Buffer, size: nat): nat
  {
    if Held(b) && b.slabSize == size then 1 else 0
  }

  function Count(xs: seq<nat>, p: nat): nat
    decreases |xs|
  {
    if xs == [] then 0 else Count(xs[..|xs| - 1], p) + (if xs[|xs| - 1] == p then 1 else 0)
  }

  function InSlabs(slabs: seq<Slab>, p: nat): nat
    decreases |slabs|
  {
    if slabs == [] then 0 else InSlabs(slabs[..|slabs| - 1], p) + Count(slabs[|slabs| - 1].free, p)
  }

  function InBuffer(b: Buffer, p: nat): nat
  {
    if Held(b) && b.p == p then 1 else 0
  }

  function InBuffers(bufs: seq<Buffer>, p: nat): nat
    decreases |bufs|
  {
    if bufs == [] then 0 else InBuffers(bufs[..|bufs| - 1], p) + InBuffer(bufs[|bufs| - 1], p)
  }

  function InJob(j: Job, p: nat): nat
  {
    if j.Allocated? && j.p == p then 1 else 0
  }

  function InJobs(jobs: seq<Job>, p: nat): nat
    decreases |jobs|
  {
    if jobs == [] then 0 else InJobs(jobs[..|jobs| - 1], p) + InJob(jobs[|jobs| - 1], p)
  }

  /** In how many places a pointer is: on free lists, with callers, with threads about to hand it out. */
  function Places(s: State, p: nat): nat
  {
    InSlabs(s.slabs, p) + InBuffers(s.bufs, p) + InJobs(s.jobs, p)
  }

  // ---- sums after a change in one place ----

  lemma {:induction false} SlabBytesSet(slabs: seq<Slab>, i: nat, b: Slab)
    requires i < |slabs| && b.size == slabs[i].size
    ensures SlabBytes(slabs[i := b]) ==
      SlabBytes(slabs) + b.size * ((|b.free| + b.totalOut) - (|slabs[i].free| + slabs[i].totalOut))
    decreases |slabs|
  {
    var n := |slabs| - 1;
    var c := slabs[i];
    Distribute(b.size, |b.free| + b.totalOut, |c.free| + c.totalOut);
    if i < n {
      SlabBytesSet(slabs[..n], i, b);
      assert slabs[i := b][..n] == slabs[..n][i := b];
    } else {
      assert slabs[i := b][..n] == slabs[..n];
    }
  }

  lemma {:induction false} Distribute(k: nat, a: int, b: int)
    ensures k * a == k * b + k * (a - b)
  {
  }

  lemma {:induction false} InFlightSet(jobs: seq<Job>, slabs: seq<Slab>, t: nat, j: Job)
    requires t < |jobs|
    ensures InFlight(jobs[t := j], slabs) == InFlight(jobs, slabs) - JobBytes(jobs[t], slabs) + JobBytes(j, slabs)
    decreases |jobs|
  {
    var n := |jobs| - 1;
    if t < n {
      InFlightSet(jobs[..n], slabs, t, j);
      assert jobs[t := j][..n] == jobs[..n][t := j];
    } else {
      assert jobs[t := j][..n] == jobs[..n];
    }
  }

  /** In-flight bytes depend only on the sizes of the slabs. */
  lemma {:induction false} InFlightSizes(jobs: seq<Job>, slabs: seq<Slab>, i: nat, b: Slab)
    requires i < |slabs| && b.size == slabs[i].size
    ensures InFlight(jobs, slabs[i := b]) == InFlight(jobs, slabs)
    decreases |jobs|
  {
    if jobs != [] {
      InFlightSizes(jobs[..|jobs| - 1], slabs, i, b);
    }
  }

  lemma {:induction false} OutstandingSet(bufs: seq<Buffer>, size: nat, b: nat, u: Buffer)
    requires b < |bufs|
    ensures
      Outstanding(bufs[b := u], size) == Outstanding(bufs, size) - CountBuffer(bufs[b], size) + CountBuffer(u, size)
    decreases |bufs|
  {
    var n := |bufs| - 1;
    if b < n {
      OutstandingSet(bufs[..n], size, b, u);
      assert bufs[b := u][..n] == bufs[..n][b := u];
    } else {
      assert bufs[b := u][..n] == bufs[..n];
    }
  }

  lemma {:induction false} InSlabsSet(slabs: seq<Slab>, i: nat, b: Slab, p: nat)
    requires i < |slabs|
    ensures InSlabs(slabs[i := b], p) == InSlabs(slabs, p) - Count(slabs[i].free, p) + Count(b.free, p)
    decreases |slabs|
  {
    var n := |slabs| - 1;
    if i < n {
      InSlabsSet(slabs[..n], i, b, p);
      assert slabs[i := b][..n] == slabs[..n][i := b];
    } else {
      assert slabs[i := b][..n] == slabs[..n];
    }
  }

  lemma {:induction false} InBuffersSet(bufs: seq<Buffer>, b: nat, u: Buffer, p: nat)
    requires b < |bufs|
    ensures InBuffers(bufs[b := u], p) == InBuffers(bufs, p) - InBuffer(bufs[b], p) + InBuffer(u, p)
    decreases |bufs|
  {
    var n := |bufs| - 1;
    if b < n {
      InBuffersSet(bufs[..n], b, u, p);
      assert bufs[b := u][..n] == bufs[..n][b := u];
    } else {
      assert bufs[b := u][..n] == bufs[..n];
    }
  }

  lemma {:induction false} InJobsSet(jobs: seq<Job>, t: nat, j: Job, p: nat)
    requires t < |jobs|
    ensures InJobs(jobs[t := j], p) == InJobs(jobs, p) - InJob(jobs[t], p) + InJob(j, p)
    decreases |jobs|
  {
    var n := |jobs| - 1;
    if t < n {
      InJobsSet(jobs[..n], t, j, p);
      assert jobs[t := j][..n] == jobs[..n][t := j];
    } else {
      assert jobs[t := j][..n] == jobs[..n];
    }
  }

  lemma {:induction false} NewBuffer(bufs: seq<Buffer>, u: Buffer, k: nat)
    ensures Outstanding(bufs + [u], k) == Outstanding(bufs, k) + CountBuffer(u, k)
    ensures InBuffers(bufs + [u], k) == InBuffers(bufs, k) + InBuffer(u, k)
  {
    assert (bufs + [u])[..|bufs|] == bufs;
  }

  lemma {:induction false} CountAppend(xs: seq<nat>, x: nat, p: nat)
    ensures Count(xs + [x], p) == Count(xs, p) + (if x == p then 1 else 0)
  {
    assert (xs + [x])[..|xs|] == xs;
  }

  // ---- the invariant ----

  predicate Shaped(s: State)
  {
    && |s.slabs| == |SIZES|
    && (forall i :: 0 <= i < |SIZES| ==> s.slabs[i].size == SIZES[i])
    && (forall t :: 0 <= t < |s.jobs| && !s.jobs[t].Idle? ==> s.jobs[t].i < |SIZES|)
    && (forall b :: 0 <= b < |s.bufs| ==> s.bufs[b].slabSize == 0 || s.bufs[b].slabSize in SIZES)
  }

  predicate Budget(s: State)
  {
    s.used == SlabBytes(s.slabs) + InFlight(s.jobs, s.slabs) && (s.cap > 0 ==> s.used <= s.cap)
  }

  predicate CountsOut(s: State)
  {
    forall i :: 0 <= i < |s.slabs| ==> s.slabs[i].totalOut == Outstanding(s.bufs, s.slabs[i].size)
  }

  ghost predicate Owned(s: State)
  {
    forall p :: OwnedAt(s, p)
  }

  predicate OwnedAt(s: State, p: nat)
  {
    Places(s, p) <= 1 && (Places(s, p) == 1 ==> p in s.live)
  }

  /** One Release at most got past the test; the field is set until it has cleared it. */
  predicate BufOk(b: Buffer)
  {
    && b.passes <= 1 && b.tested + b.marked + b.checked + b.taken + b.back + b.done <= b.passes
    && (b.holds <==> b.done == 0) && (!b.released ==> b.tested == b.passes)
  }

  ghost predicate Inv(s: State)
  {
    && Shaped(s) && Budget(s) && CountsOut(s) && Owned(s)
    && (forall b :: 0 <= b < |s.bufs| ==> BufOk(s.bufs[b])) && !s.fault
  }

  /** No two Releases of one buffer have both found it unreleased. */
  predicate Covered(s: State)
  {
    forall b :: 0 <= b < |s.bufs| ==> s.bufs[b].passes <= 1
  }

  // ---- every step keeps it ----

  lemma {:induction false} SizesDiffer(s: State, i: nat, k: nat)
    requires Shaped(s) && i < |s.slabs| && k < |s.slabs| && i != k
    ensures s.slabs[i].size != s.slabs[k].size && s.slabs[i].size > 0
  {
  }

  /** Moving a pointer from a free list to a caller. */
  lemma {:induction false} GetFreeInv(s: State, t: nat, i: nat)
    requires Inv(s)
    ensures Inv(GetFreeS(s, t, i))
  {
    hide SlabBytes, InFlight, Outstanding, InSlabs, InBuffers, InJobs, Count;
    var r := GetFreeS(s, t, i);
    if r != s {
      var c, u := r.slabs[i], r.bufs[|s.bufs|];
      SlabBytesSet(s.slabs, i, c);
      InFlightSizes(s.jobs, s.slabs, i, c);
      forall k | 0 <= k < |r.slabs| ensures r.slabs[k].totalOut == Outstanding(r.bufs, r.slabs[k].size)
      {
        NewBuffer(s.bufs, u, s.slabs[k].size);
        if k != i { SizesDiffer(s, i, k); }
      }
      assert Owned(r) by { FreeMoves(s, t, i); }
    }
  }

  lemma {:induction false} FreeMoves(s: State, t: nat, i: nat)
    requires Owned(s) && GetFreeS(s, t, i) != s
    ensures Owned(GetFreeS(s, t, i))
  {
    hide InSlabs, InBuffers, InJobs, Count;
    var r := GetFreeS(s, t, i);
    var b := s.slabs[i].free;
    var n := |b| - 1;
    forall p ensures OwnedAt(r, p)
    {
      assert OwnedAt(s, p);
      InSlabsSet(s.slabs, i, r.slabs[i], p);
      NewBuffer(s.bufs, r.bufs[|s.bufs|], p);
      assert b == b[..n] + [b[n]];
      CountAppend(b[..n], b[n], p);
    }
  }

  /** A thread's step that moves no pointer but may move the budget. */
  lemma {:induction false} JobInv(s: State, t: nat, j: Job, used: int)
    requires Inv(s) && t < |s.jobs| && !s.jobs[t].Allocated? && !j.Allocated? && (!j.Idle? ==> j.i < |SIZES|)
    requires used == s.used - JobBytes(s.jobs[t], s.slabs) + JobBytes(j, s.slabs)
    requires s.cap > 0 ==> used <= s.cap
    ensures Inv(SetJob(s, t, j).(used := used))
  {
    hide SlabBytes, InFlight, Outstanding, InSlabs, InBuffers, InJobs;
    var r := SetJob(s, t, j).(used := used);
    InFlightSet(s.jobs, s.slabs, t, j);
    forall p ensures OwnedAt(r, p)
    {
      assert OwnedAt(s, p);
      InJobsSet(s.jobs, t, j, p);
    }
  }

  lemma {:induction false} CudaInv(s: State, t: nat, result: Option<nat>)
    requires Inv(s)
    ensures Inv(CudaS(s, t, result))
  {
    hide SlabBytes, InFlight, Outstanding, InSlabs, InBuffers, InJobs;
    var r := CudaS(s, t, result);
    if r != s {
      if result.None? {
        JobInv(s, t, RollingBack(s.jobs[t].i), s.used);
      } else {
        var j := Allocated(s.jobs[t].i, result.value);
        InFlightSet(s.jobs, s.slabs, t, j);
        forall p ensures OwnedAt(r, p)
        {
          assert OwnedAt(s, p);
          InJobsSet(s.jobs, t, j, p);
        }
      }
    }
  }

  lemma {:induction false} HandOutInv(s: State, t: nat)
    requires Inv(s)
    ensures Inv(HandOutS(s, t))
  {
    hide SlabBytes, InFlight, Outstanding, InSlabs, InBuffers, InJobs, Count;
    var r := HandOutS(s, t);
    if r != s {
      var j := s.jobs[t];
      var c, u := r.slabs[j.i], r.bufs[|s.bufs|];
      assert Budget(r) by {
        SlabBytesSet(s.slabs, j.i, c);
        InFlightSizes(s.jobs[t := Idle], s.slabs, j.i, c);
        InFlightSet(s.jobs, s.slabs, t, Idle);
      }
      forall k | 0 <= k < |r.slabs| ensures r.slabs[k].totalOut == Outstanding(r.bufs, r.slabs[k].size)
      {
        NewBuffer(s.bufs, u, s.slabs[k].size);
        if k != j.i { SizesDiffer(s, j.i, k); }
      }
      forall p ensures OwnedAt(r, p)
      {
        assert OwnedAt(s, p);
        InSlabsSet(s.slabs, j.i, c, p);
        NewBuffer(s.bufs, u, p);
        InJobsSet(s.jobs, t, Idle, p);
      }
    }
  }

  lemma {:induction false} ColdInv(s: State, p: nat)
    requires Inv(s)
    ensures Inv(Next(s, ColdAlloc(p)))
  {
    hide SlabBytes, InFlight, Outstanding, InSlabs, InBuffers, InJobs;
    var r := Next(s, ColdAlloc(p));
    if r != s {
      var u := r.bufs[|s.bufs|];
      forall k | 0 <= k < |r.slabs| ensures r.slabs[k].totalOut == Outstanding(r.bufs, r.slabs[k].size)
      {
        NewBuffer(s.bufs, u, s.slabs[k].size);
      }
      forall q ensures OwnedAt(r, q)
      {
        assert OwnedAt(s, q);
        NewBuffer(s.bufs, u, q);
      }
    }
  }

  /** A step that moves no pointer, only a Release call. */
  lemma {:induction false} BufInv(s: State, b: nat, u: Buffer)
    requires Inv(s) && b < |s.bufs| && BufOk(u)
    requires u.p == s.bufs[b].p && u.slabSize == s.bufs[b].slabSize && (Held(u) <==> Held(s.bufs[b]))
    ensures Inv(SetBuf(s, b, u))
  {
    hide SlabBytes, InFlight, Outstanding, InSlabs, InBuffers, InJobs;
    var r := SetBuf(s, b, u);
    forall k | 0 <= k < |r.slabs| ensures r.slabs[k].totalOut == Outstanding(r.bufs, r.slabs[k].size)
    {
      OutstandingSet(s.bufs, s.slabs[k].size, b, u);
    }
    forall q ensures OwnedAt(r, q)
    {
      assert OwnedAt(s, q);
      InBuffersSet(s.bufs, b, u, q);
    }
  }

  lemma {:induction false} ClassFound(s: State, b: nat)
    requires Shaped(s) && b < |s.bufs| && s.bufs[b].slabSize != 0
    ensures FindSlab(s.slabs, s.bufs[b].slabSize) < |s.slabs|
  {
    hide FindSlab;
    var x :| 0 <= x < |SIZES| && SIZES[x] == s.bufs[b].slabSize;
    assert s.slabs[x].size == s.bufs[b].slabSize;
  }

  lemma {:induction false} PutCounts(s: State, b: nat)
    requires Shaped(s) && CountsOut(s) && PutBackS(s, b) != s && BufOk(s.bufs[b])
    ensures CountsOut(PutBackS(s, b))
  {
    hide Outstanding, FindSlab;
    var r, u := PutBackS(s, b), s.bufs[b];
    var i := FindSlab(s.slabs, u.slabSize);
    if u.slabSize != 0 {
      ClassFound(s, b);
    }
    forall k | 0 <= k < |r.slabs| ensures r.slabs[k].totalOut == Outstanding(r.bufs, r.slabs[k].size)
    {
      OutstandingSet(s.bufs, s.slabs[k].size, b, r.bufs[b]);
      if u.slabSize != 0 && k != i { SizesDiffer(s, i, k); }
    }
  }

  lemma {:induction false} PutBackInv(s: State, b: nat)
    requires Inv(s)
    ensures Inv(PutBackS(s, b))
  {
    hide SlabBytes, InFlight, CountsOut, Owned, FindSlab;
    var r := PutBackS(s, b);
    if r != s {
      var u := s.bufs[b];
      var i := FindSlab(s.slabs, u.slabSize);
      assert BufOk(u);
      assert Budget(r) by {
        if u.slabSize != 0 {
          ClassFound(s, b);
          SlabBytesSet(s.slabs, i, r.slabs[i]);
          InFlightSizes(s.jobs, s.slabs, i, r.slabs[i]);
        }
      }
      assert CountsOut(r) by { PutCounts(s, b); }
      PutMoves(s, b);
    }
  }

  lemma {:induction false} InOneBuffer(bufs: seq<Buffer>, b: nat)
    requires b < |bufs| && Held(bufs[b])
    ensures InBuffers(bufs, bufs[b].p) > 0
    decreases |bufs|
  {
    if b < |bufs| - 1 {
      InOneBuffer(bufs[..|bufs| - 1], b);
    }
  }

  lemma {:induction false} PutMoves(s: State, b: nat)
    requires Owned(s) && PutBackS(s, b) != s && BufOk(s.bufs[b])
    ensures Owned(PutBackS(s, b)) && PutBackS(s, b).fault == s.fault
  {
    hide InSlabs, InBuffers, InJobs, Count;
    var r, u := PutBackS(s, b), s.bufs[b];
    var i := FindSlab(s.slabs, u.slabSize);
    InOneBuffer(s.bufs, b);
    assert OwnedAt(s, u.p);
    forall q ensures OwnedAt(r, q)
    {
      assert OwnedAt(s, q);
      InBuffersSet(s.bufs, b, r.bufs[b], q);
      if u.slabSize != 0 && i < |s.slabs| {
        InSlabsSet(s.slabs, i, r.slabs[i], q);
        CountAppend(s.slabs[i].free, u.p, q);
      }
    }
  }

  lemma {:induction false} ReleaseInv(s: State, step: Step)
    requires Inv(s) && (step.Test? || step.Mark? || step.Check? || step.Take? || step.Clear?)
    requires Covered(Next(s, step))
    ensures Inv(Next(s, step))
  {
    hide Shaped, Budget, CountsOut, Owned;
    var r := Next(s, step);
    if r != s {
      assert BufOk(s.bufs[step.b]);
      BufInv(s, step.b, r.bufs[step.b]);
    }
  }

  lemma {:induction false} NextInv(s: State, step: Step)
    requires Inv(s) && Covered(Next(s, step))
    ensures Inv(Next(s, step)) && Next(s, step).cap == s.cap
  {
    hide CountsOut, Owned, SlabBytes, InFlight;
    match step
    case GetFree(t, i) => GetFreeInv(s, t, i);
    case GetMiss(t, i) => if Next(s, step) != s { JobInv(s, t, Missed(i), s.used); }
    case Reserve(t) => if Next(s, step) != s { ReserveInv(s, t); }
    case Cuda(t, r) => CudaInv(s, t, r);
    case RollBack(t) => if Next(s, step) != s { RollBackInv(s, t); }
    case HandOut(t) => HandOutInv(s, t);
    case ColdAlloc(p) => ColdInv(s, p);
    case PutBack(b) => PutBackInv(s, b);
    case _ => ReleaseInv(s, step);
  }

  /** The budget check comes before the reservation. */
  lemma {:induction false} ReserveInv(s: State, t: nat)
    requires Inv(s)
    ensures Inv(ReserveS(s, t))
  {
    hide CountsOut, Owned, SlabBytes, InFlight;
    if ReserveS(s, t) != s {
      var i := s.jobs[t].i;
      var size := s.slabs[i].size;
      if s.used + size > s.cap && s.cap > 0 {
        JobInv(s, t, Idle, s.used);
      } else {
        JobInv(s, t, Reserved(i), s.used + size);
      }
    }
  }

  lemma {:induction false} RollBackInv(s: State, t: nat)
    requires Inv(s)
    ensures Inv(RollBackS(s, t))
  {
    hide CountsOut, Owned, SlabBytes, InFlight;
    if RollBackS(s, t) != s {
      JobInv(s, t, Idle, s.used - s.slabs[s.jobs[t].i].size);
    }
  }

  lemma {:induction false} StartInv(cap: nat, threads: nat)
    ensures Inv(Start(cap, threads))
  {
    var s := Start(cap, threads);
    EmptySlabs(s.slabs);
    IdleJobs(s.jobs, s.slabs);
    forall p ensures OwnedAt(s, p) { }
  }

  lemma {:induction false} EmptySlabs(slabs: seq<Slab>)
    requires forall i :: 0 <= i < |slabs| ==> slabs[i].free == [] && slabs[i].totalOut == 0
    ensures SlabBytes(slabs) == 0 && forall p :: InSlabs(slabs, p) == 0
    decreases |slabs|
  {
    if slabs != [] {
      EmptySlabs(slabs[..|slabs| - 1]);
    }
  }

  lemma {:induction false} IdleJobs(jobs: seq<Job>, slabs: seq<Slab>)
    requires forall t :: 0 <= t < |jobs| ==> jobs[t].Idle?
    ensures InFlight(jobs, slabs) == 0 && forall p :: InJobs(jobs, p) == 0
    decreases |jobs|
  {
    if jobs != [] {
      IdleJobs(jobs[..|jobs| - 1], slabs);
    }
  }

  /** Passed tests are never taken back. */
  lemma {:induction false} CoveredEarlier(s: State, steps: seq<Step>)
    requires Covered(Run(s, steps))
    ensures Covered(s)
    decreases |steps|
  {
    hide Next, Covered;
    if steps != [] {
      CoveredEarlier(Next(s, steps[0]), steps[1..]);
      CoveredBefore(s, steps[0]);
    }
  }

  lemma {:induction false} CoveredBefore(s: State, step: Step)
    requires Covered(Next(s, step))
    ensures Covered(s)
  {
    forall b | 0 <= b < |s.bufs| ensures s.bufs[b].passes <= 1
    {
      assert b < |Next(s, step).bufs| && s.bufs[b].passes <= Next(s, step).bufs[b].passes;
    }
  }

  lemma {:induction false} RunInv(s: State, steps: seq<Step>)
    requires Inv(s) && Covered(Run(s, steps))
    ensures Inv(Run(s, steps)) && Run(s, steps).cap == s.cap
    decreases |steps|
  {
    hide Inv, Next, Covered;
    if steps != [] {
      CoveredEarlier(Next(s, steps[0]), steps[1..]);
      NextInv(s, steps[0]);
      RunInv(Next(s, steps[0]), steps[1..]);
    }
  }

  // ---- the theorem ----

  /** The bytes of all classes, counting the buffers callers really hold. */
  function HeldBytes(slabs: seq<Slab>, bufs: seq<Buffer>): int
    decreases |slabs|
  {
    if slabs == [] then 0
    else
      var b := slabs[|slabs| - 1];
      HeldBytes(slabs[..|slabs| - 1], bufs) + b.size * (|b.free| + Outstanding(bufs, b.size))
  }

  lemma {:induction false} HeldIsCounted(slabs: seq<Slab>, bufs: seq<Buffer>)
    requires forall i :: 0 <= i < |slabs| ==> slabs[i].totalOut == Outstanding(bufs, slabs[i].size)
    ensures HeldBytes(slabs, bufs) == SlabBytes(slabs)
    decreases |slabs|
  {
    hide Outstanding;
    if slabs != [] {
      HeldIsCounted(slabs[..|slabs| - 1], bufs);
    }
  }

  /**
   The reserved bytes are those of free and outstanding buffers plus reservations in flight, never above
   a nonzero cap; no pointer is in two places, whether free, handed out or about to be; and every pointer
   in a place is allocated.
   */
  ghost predicate Safe(s: State)
  {
    && !s.fault && s.used == HeldBytes(s.slabs, s.bufs) + InFlight(s.jobs, s.slabs)
    && (s.cap > 0 ==> s.used <= s.cap)
    && (forall p :: OwnedAt(s, p))
  }

  lemma {:induction false} InvSafe(s: State)
    requires Inv(s)
    ensures Safe(s)
  {
    hide SlabBytes, InFlight, Outstanding, OwnedAt;
    HeldIsCounted(s.slabs, s.bufs);
  }

  /** Safety of every interleaving, failed allocations included, of which no two Releases of one buffer race. */
  lemma {:induction false} BudgetAndOwnership(cap: nat, threads: nat, steps: seq<Step>)
    requires Covered(Run(Start(cap, threads), steps))
    ensures Safe(Run(Start(cap, threads), steps)) && Run(Start(cap, threads), steps).cap == cap
  {
    hide Run, Inv, Safe, Covered;
    StartInv(cap, threads);
    RunInv(Start(cap, threads), steps);
    InvSafe(Run(Start(cap, threads), steps));
  }

  // ---- and exactly those ----

  predicate NoTest(steps: seq<Step>)
  {
    forall i :: 0 <= i < |steps| ==> !steps[i].Test?
  }

  /** Two Releases past the test both run on to giving the pointer back. */
  function BothRelease(b: nat): seq<Step>
  {
    [Mark(b), Mark(b)] + ([Check(b), Check(b)] + ([Take(b), Take(b)] + [PutBack(b), PutBack(b)]))
  }

  lemma {:induction false} MarkBoth(s: State, b: nat)
    requires b < |s.bufs| && s.bufs[b].tested == 2
    ensures var u := s.bufs[b];
      Run(s, [Mark(b), Mark(b)]) == SetBuf(s, b, u.(released := true, tested := 0, marked := u.marked + 2))
  {
    hide Run;
    RunTwo(s, Mark(b), Mark(b));
  }

  lemma {:induction false} CheckBoth(s: State, b: nat)
    requires b < |s.bufs| && s.bufs[b].marked >= 2 && s.bufs[b].holds
    ensures var u := s.bufs[b];
      Run(s, [Check(b), Check(b)]) == SetBuf(s, b, u.(marked := u.marked - 2, checked := u.checked + 2))
  {
    hide Run;
    RunTwo(s, Check(b), Check(b));
  }

  lemma {:induction false} TakeBoth(s: State, b: nat)
    requires b < |s.bufs| && s.bufs[b].checked >= 2 && s.bufs[b].holds
    ensures var u := s.bufs[b];
      Run(s, [Take(b), Take(b)]) == SetBuf(s, b, u.(checked := u.checked - 2, taken := u.taken + 2))
  {
    hide Run;
    RunTwo(s, Take(b), Take(b));
  }

  lemma {:induction false} BothTake(s: State, b: nat)
    requires b < |s.bufs| && s.bufs[b].tested == 2 && s.bufs[b].holds
    ensures var u := s.bufs[b];
      var t := SetBuf(s, b, u.(released := true, tested := 0, taken := u.taken + 2));
      Run(s, BothRelease(b)) == PutBackS(PutBackS(t, b), b)
  {
    hide Run, PutBackS;
    var (m, c, t, p) := ([Mark(b), Mark(b)], [Check(b), Check(b)], [Take(b), Take(b)], [PutBack(b), PutBack(b)]);
    MarkBoth(s, b);
    RunConcat(s, m, c + (t + p));
    CheckBoth(Run(s, m), b);
    RunConcat(Run(s, m), c, t + p);
    TakeBoth(Run(Run(s, m), c), b);
    RunConcat(Run(Run(s, m), c), t, p);
    var (u, r) := (s.bufs[b], Run(Run(Run(s, m), c), t));
    assert r == SetBuf(s, b, u.(released := true, tested := 0, taken := u.taken + 2));
    RunTwo(r, PutBack(b), PutBack(b));
  }

  lemma {:induction false} OneSlabOfAll(slabs: seq<Slab>, i: nat, p: nat)
    requires i < |slabs|
    ensures Count(slabs[i].free, p) <= InSlabs(slabs, p)
  {
    hide InSlabs;
    InSlabsSet(slabs, i, slabs[i].(free := []), p);
  }

  /** The pointer is on its free list twice, or the runtime has been asked to free it twice. */
  lemma {:induction false} PutBackTwice(s: State, b: nat)
    requires Shaped(s) && b < |s.bufs| && s.bufs[b].taken >= 2
    ensures !Safe(PutBackS(PutBackS(s, b), b))
  {
    hide HeldBytes, InFlight, InSlabs, InBuffers, InJobs, Count;
    var u := s.bufs[b];
    var r := PutBackS(PutBackS(s, b), b);
    if u.slabSize != 0 {
      var i := FindSlab(s.slabs, u.slabSize);
      ClassFound(s, b);
      SameClass(s.slabs, i, PutBackS(s, b).slabs[i]);
      var f := s.slabs[i].free;
      assert r.slabs[i].free == f + [u.p] + [u.p];
      CountAppend(f, u.p, u.p);
      CountAppend(f + [u.p], u.p, u.p);
      OneSlabOfAll(r.slabs, i, u.p);
      assert !OwnedAt(r, u.p);
    }
  }

  lemma {:induction false} SameClass(slabs: seq<Slab>, i: nat, c: Slab)
    requires i < |slabs| && FindSlab(slabs, slabs[i].size) == i && c.size == slabs[i].size
    ensures FindSlab(slabs[i := c], c.size) == i
  {
    hide FindSlab;
    var k := FindSlab(slabs[i := c], c.size);
    assert slabs[i := c][i] == c;
  }

  /** The first Release has not set the flag, so it stands where the second does. */
  lemma {:induction false} SecondPass(s: State, step: Step)
    requires (forall b :: 0 <= b < |s.bufs| ==> BufOk(s.bufs[b])) && !Covered(Next(s, step))
    ensures step.Test? && step.b < |s.bufs|
    ensures var u := s.bufs[step.b];
      u.holds && Next(s, step) == SetBuf(s, step.b, u.(passes := 2, tested := 2))
  {
    hide Next;
    if !step.Test? {
      NoPass(s, step);
    }
    assert Next(s, step) == TestS(s, step.b) by { TestStep(s, step.b); }
    assert step.b < |s.bufs| ==> BufOk(s.bufs[step.b]);
  }

  lemma {:induction false} TestStep(s: State, b: nat)
    ensures Next(s, Test(b)) == TestS(s, b)
  {
  }

  lemma {:induction false} NoTestIn(b: nat)
    ensures NoTest(BothRelease(b))
  {
  }

  lemma {:induction false} SecondPassBreaks(s: State, step: Step)
    requires Inv(s) && !Covered(Next(s, step))
    ensures step.Test? && NoTest(BothRelease(step.b)) && !Safe(Run(Next(s, step), BothRelease(step.b)))
  {
    hide Budget, CountsOut, Owned, Safe, Run, Next, Covered, PutBackS, BufOk;
    SecondPass(s, step);
    NoTestIn(step.b);
    var t := Next(s, step);
    var u := t.bufs[step.b];
    BothTake(t, step.b);
    PutBackTwice(SetBuf(t, step.b, u.(released := true, tested := 0, taken := u.taken + 2)), step.b);
  }

  lemma {:induction false} NoTestCovered(s: State, steps: seq<Step>)
    requires Covered(s) && NoTest(steps)
    ensures Covered(Run(s, steps))
    decreases |steps|
  {
    hide Next, Covered;
    if steps != [] {
      NoPass(s, steps[0]);
      NoTestCovered(Next(s, steps[0]), steps[1..]);
    }
  }

  lemma {:induction false} NoPass(s: State, step: Step)
    requires Covered(s) && !step.Test?
    ensures Covered(Next(s, step))
  {
    var t := Next(s, step);
    forall b: nat | b < |t.bufs| ensures t.bufs[b].passes <= 1
    {
      assert b < |s.bufs| ==> t.bufs[b].passes == s.bufs[b].passes;
    }
  }

  /**
   The exact condition. After a run without a race so far and one more step: every way to go on without a
   further Release is safe if and only if no two Releases of one buffer have both found it unreleased.
   */
  lemma {:induction false} SafeExactlyWhenCovered(cap: nat, threads: nat, steps: seq<Step>, step: Step)
    requires Covered(Run(Start(cap, threads), steps))
    ensures Covered(Next(Run(Start(cap, threads), steps), step)) <==>
      forall more :: NoTest(more) ==> Safe(Run(Next(Run(Start(cap, threads), steps), step), more))
  {
    hide Run, Inv, Safe, Covered, Next, NoTest, BothRelease;
    StartInv(cap, threads);
    RunInv(Start(cap, threads), steps);
    var s := Run(Start(cap, threads), steps);
    var t := Next(s, step);
    if Covered(t) {
      NextInv(s, step);
      forall more | NoTest(more) ensures Safe(Run(t, more))
      {
        NoTestCovered(t, more);
        RunInv(t, more);
        InvSafe(Run(t, more));
      }
    } else {
      SecondPassBreaks(s, step);
    }
  }

  // ---- what a caller can see to ----

  /** No Release tests the flag while another is between its test and its store. */
  predicate OneAtATime(s: State, steps: seq<Step>)
    decreases |steps|
  {
    steps == [] ||
    ((steps[0].Test? && steps[0].b < |s.bufs| ==> s.bufs[steps[0].b].tested == 0) &&
     OneAtATime(Next(s, steps[0]), steps[1..]))
  }

  /** A Release past its test has set the flag, or is about to, alone. */
  predicate MarkedAt(b: Buffer)
  {
    b.passes <= 1 && b.tested <= b.passes && (!b.released ==> b.tested == b.passes)
  }

  predicate Marked(s: State)
  {
    forall b :: 0 <= b < |s.bufs| ==> MarkedAt(s.bufs[b])
  }

  lemma {:induction false} MarkedNext(s: State, step: Step)
    requires Marked(s) && (step.Test? && step.b < |s.bufs| ==> s.bufs[step.b].tested == 0)
    ensures Marked(Next(s, step))
  {
    hide FindSlab;
    var t := Next(s, step);
    forall b: nat | b < |t.bufs| ensures MarkedAt(t.bufs[b])
    {
      if b < |s.bufs| {
        assert MarkedAt(s.bufs[b]);
      } else {
        assert t.bufs[b].passes == 0;
      }
    }
  }

  lemma {:induction false} OneAtATimeIsCovered(s: State, steps: seq<Step>)
    requires Marked(s) && OneAtATime(s, steps)
    ensures Covered(Run(s, steps))
    decreases |steps|
  {
    hide Next;
    if steps != [] {
      MarkedNext(s, steps[0]);
      OneAtATimeIsCovered(Next(s, steps[0]), steps[1..]);
    }
  }

  /** Release is idempotent in every run of single calls: whatever the order, budget and ownership hold. */
  lemma {:induction false} SingleReleasesSafe(cap: nat, threads: nat, steps: seq<Step>)
    requires OneAtATime(Start(cap, threads), steps)
    ensures Safe(Run(Start(cap, threads), steps))
  {
    hide Run, Safe, OneAtATime;
    OneAtATimeIsCovered(Start(cap, threads), steps);
    BudgetAndOwnership(cap, threads, steps);
  }

  /** The race is reached: one buffer from outside the pool, two Releases that both test before either marks. */
  lemma {:induction false} RaceReached(cap: nat, threads: nat, p: nat)
    ensures var s := Run(Start(cap, threads), [ColdAlloc(p), Test(0)]);
      Covered(s) && !Covered(Next(s, Test(0)))
  {
    hide Run;
    RunTwo(Start(cap, threads), ColdAlloc(p), Test(0));
    var s := Run(Start(cap, threads), [ColdAlloc(p), Test(0)]);
    assert Next(s, Test(0)).bufs[0].passes == 2;
  }

  /**
   What is released is what is handed out next: after an uninterrupted Release of a pooled buffer, a get
   from its class returns the same pointer, from no more memory, and leaves the class as it was.
   */
  lemma {:induction false} ReleasedIsReused(s: State, b: nat, t: nat, i: nat)
    requires Shaped(s) && b < |s.bufs| && !s.bufs[b].released && s.bufs[b].holds
    requires i < |s.slabs| && s.bufs[b].slabSize == s.slabs[i].size && t < |s.jobs| && s.jobs[t] == Idle
    ensures var u := Run(s, ReleaseSteps(b, true) + [GetFree(t, i)]);
      && |u.bufs| == |s.bufs| + 1 && u.bufs[|s.bufs|] == Fresh(s.bufs[b].p, s.slabs[i].size)
      && u.used == s.used && u.live == s.live && u.slabs == s.slabs && !Held(u.bufs[b])
  {
    hide Run, FindSlab;
    RunConcat(s, ReleaseSteps(b, true), [GetFree(t, i)]);
    ReleaseRun(s, b);
    var r := ReleaseAll(s, b);
    RunOne(r, GetFree(t, i));
    SlabFound(s, i);
    var c := s.slabs[i];
    assert (c.free + [s.bufs[b].p])[..|c.free|] == c.free;
    assert s.slabs[i := c] == s.slabs;
  }

  lemma {:induction false} SlabFound(s: State, i: nat)
    requires Shaped(s) && i < |s.slabs|
    ensures FindSlab(s.slabs, s.slabs[i].size) == i && s.slabs[i].size > 0
  {
    var k := FindSlab(s.slabs, s.slabs[i].size);
    if k < i {
      SizesDiffer(s, i, k);
    }
    assert s.slabs[i].size == SIZES[i];
  }
}
