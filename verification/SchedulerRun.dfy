/**
  Any sequence of calls to the scheduler is a run of the round-robin policy, so that the policy's
  waiting bound holds of the threads themselves.
  */
module SchedulerRun {
  import opened Bytes
  import opened Lists
  import opened RoundRobin
  import opened Scheduler

  /** What interrupts and threads call, one at a time on one CPU. */
  datatype Call =
    | TickCall(now: nat)
    | YieldCall
    | BlockCall(chan: int)
    | BlockTimeoutCall(chan: int, timeoutMs: nat, now: nat)
    | ResumeCall(timeoutMs: nat, timed: bool)
    | SleepCall(ticks: nat, now: nat)
    | EndSleepCall
    | WakeCall(chan: int)
    | WakeThreadCall(t: nat)
    | SpawnCall(t: nat, memory: bool)
    | ExitCall
    | ForceExitCall(t: nat)
    | CleanupCall

  // ---------------------------------------------------------------- traces

  /** A piece of a run of the policy. */
  ghost predicate Trace(states: seq<Queue>, steps: seq<Step>) {
    && |states| == |steps| + 1
    && forall i :: 0 <= i < |steps| ==> Enabled(states[i], steps[i]) && states[i + 1] == Next(states[i], steps[i])
  }

  lemma JoinTraces(a: seq<Queue>, x: seq<Step>, b: seq<Queue>, y: seq<Step>)
    requires Trace(a, x) && Trace(b, y) && a[|x|] == b[0]
    ensures Trace(a + b[1..], x + y) && (a + b[1..])[|x + y|] == b[|y|] && (a + b[1..])[0] == a[0]
    ensures forall q :: q in a + b[1..] ==> q in a || q in b
  {
    hide Enabled, Next;
    var c, z := a + b[1..], x + y;
    forall i | 0 <= i < |z| ensures Enabled(c[i], z[i]) && c[i + 1] == Next(c[i], z[i]) {
      if i < |x| {
        assert c[i] == a[i] && c[i + 1] == a[i + 1] && z[i] == x[i];
      } else {
        assert c[i] == b[i - |x|] && c[i + 1] == b[i - |x| + 1] && z[i] == y[i - |x|];
      }
    }
  }

  lemma {:induction false} TicksJoin(x: seq<Step>, y: seq<Step>)
    ensures Ticks(x + y) == Ticks(x) + Ticks(y)
  {
    if y == [] {
      assert x + y == x;
    } else {
      assert (x + y)[..|x + y| - 1] == x + y[..|y| - 1];
      TicksJoin(x, y[..|y| - 1]);
    }
  }

  /** Waking several threads is waking one after the other. */
  lemma {:induction false} WakeTrace(q: Queue, ts: seq<nat>) returns (states: seq<Queue>, steps: seq<Step>)
    requires Distinct(q.threads + ts)
    ensures Trace(states, steps) && states[0] == q && states[|steps|] == EnqueueAll(q, ts)
    ensures Ticks(steps) == 0 && forall t :: RemoveStep(t) !in steps
    ensures forall s :: s in states ==> s.running == q.running && q.threads <= s.threads
  {
    if ts == [] {
      states, steps := [q], [];
      assert q.threads + ts == q.threads;
    } else {
      var n := |ts| - 1;
      assert q.threads + ts == q.threads + ts[..n] + [ts[n]];
      DistinctPrefix(q.threads + ts[..n], ts[n]);
      states, steps := WakeTrace(q, ts[..n]);
      var q' := EnqueueAll(q, ts[..n]);
      WakeOne(q', ts[n]);
      JoinTraces(states, steps, [q', Enqueue(q', ts[n])], [WakeStep(ts[n])]);
      TicksJoin(steps, [WakeStep(ts[n])]);
      states, steps := states + [q', Enqueue(q', ts[n])][1..], steps + [WakeStep(ts[n])];
    }
  }

  lemma DistinctPrefix(s: seq<nat>, x: nat)
    requires Distinct(s + [x])
    ensures Distinct(s) && x !in s
  {
    var s' := s + [x];
    assert forall i :: 0 <= i < |s| ==> s'[i] == s[i];
    assert s'[|s|] == x;
  }

  lemma WakeOne(q: Queue, t: nat)
    requires t !in q.threads
    ensures Trace([q, Enqueue(q, t)], [WakeStep(t)]) && Ticks([WakeStep(t)]) == 0
  {
  }

  lemma {:induction false} SelectSome(c: Condition, wakes: seq<nat>, chans: seq<int>, s: seq<nat>, meets: bool)
    requires Distinct(s)
    ensures Distinct(Select(c, wakes, chans, s, meets))
    ensures forall x :: x in Select(c, wakes, chans, s, meets) ==> x in s
  {
    hide Meets;
    if s != [] {
      assert Distinct(s[1..]) && s[0] !in s[1..];
      SelectSome(c, wakes, chans, s[1..], meets);
    }
  }

  // ------------------------------------------------------------------ one call

  /** A thread the policy shows on the CPU is the current one before or after the call. */
  ghost predicate Shows(states: seq<Queue>, before: int, after: int) {
    forall q, t :: q in states && Runs(q, t) ==> t == before || t == after
  }

  ghost predicate Removes(steps: seq<Step>, c: Call) {
    forall t :: RemoveStep(t) in steps ==> c == ForceExitCall(t)
  }

  lemma AbsIsValid(s: Scheduler)
    requires s.Valid()
    ensures RoundRobin.Valid(s.Abs()) && s.Abs().threads == s.runq
    ensures s.Abs().running <==> s.current > 0
    ensures s.current > 0 ==> s.runq != [] && s.runq[0] == s.current
    ensures forall t :: Runs(s.Abs(), t) ==> t == s.current
  {
    hide Linked, States, OnCpu, TailsFull, Covers;
  }

  /** One step of the policy, or none. */
  lemma OneStep(q: Queue, step: Step)
    requires Enabled(q, step)
    ensures Trace([q, Next(q, step)], [step]) && Ticks([step]) == if step.TickStep? then 1 else 0
  {
    hide Enabled, Next;
  }

  lemma WokenAreNew(s: Scheduler, c: Condition)
    requires s.Valid()
    ensures Distinct(s.runq + Select(c, s.wakeupTick, s.waitChan, s.blocked, true))
  {
    hide Linked, States, OnCpu, TailsFull, Covers, Select;
    SelectSome(c, s.wakeupTick, s.waitChan, s.blocked, true);
    var due := Select(c, s.wakeupTick, s.waitChan, s.blocked, true);
    forall x | x in due ensures x !in s.runq {
    }
    Disjoint(s.runq, due);
  }

  lemma Disjoint(a: seq<nat>, b: seq<nat>)
    requires Distinct(a) && Distinct(b) && forall x :: x in b ==> x !in a
    ensures Distinct(a + b)
  {
    forall i, j | 0 <= i < j < |a + b| ensures (a + b)[i] != (a + b)[j] {
      if i < |a| <= j {
        assert a[i] in a && b[j - |a|] in b;
      }
    }
  }

  method OnList(s: Scheduler, first: int, t: nat, ghost list: seq<nat>) returns (found: bool)
    requires Linked(s.next, first, list)
    ensures found <==> t in list
  {
    ListEnds(s.next, first, list);
    var curr := first;
    ghost var k := 0;
    while curr != NULL
      invariant k <= |list| && curr == At(list, k) && t !in list[..k]
      decreases |list| - k
    {
      if curr == t {
        return true;
      }
      assert list[..k + 1] == list[..k] + [list[k]];
      curr := s.next[curr];
      k := k + 1;
    }
    assert list[..|list|] == list;
    return false;
  }

  /** Whether the thread was spawned and not yet freed. */
  method IsLive(s: Scheduler, t: nat) returns (live: bool)
    requires s.Valid()
    ensures live <==> t in s.live
    ensures !live ==> Unlisted(t, s.runq, s.blocked, s.dead)
  {
    hide Linked, States, OnCpu, TailsFull, Apart;
    live := OnList(s, s.head, t, s.runq);
    if !live {
      live := OnList(s, s.blockedList, t, s.blocked);
    }
    if !live {
      live := OnList(s, s.zombieList, t, s.dead);
    }
  }

  /** The policy's view of a call: a call that its caller may not make is passed over. */
  method Perform(s: Scheduler, c: Call) returns (ghost states: seq<Queue>, ghost steps: seq<Step>)
    requires s.Valid()
    modifies s
    ensures s.Valid() && Trace(states, steps) && states[0] == old(s.Abs()) && states[|steps|] == s.Abs()
    ensures Ticks(steps) == if c.TickCall? then 1 else 0
    ensures Removes(steps, c) && Shows(states, old(s.current), s.current)
    ensures c.WakeCall? ==>
              s.Abs() == EnqueueAll(old(s.Abs()),
                                    Select(OnChannel(c.chan), old(s.wakeupTick), old(s.waitChan), old(s.blocked), true))
    ensures c.WakeThreadCall? ==> s.Abs() == if c.t in old(s.blocked) then Enqueue(old(s.Abs()), c.t) else old(s.Abs())
    ensures c.SpawnCall? ==>
              s.Abs() == if c.memory && 0 < c.t < |old(s.next)| && c.t !in old(s.live) then Enqueue(old(s.Abs()), c.t)
                         else old(s.Abs())
    ensures c.EndSleepCall? && old(s.current) > 0 ==>
              old(s.current) < |old(s.wakeupTick)| && s.wakeupTick == old(s.wakeupTick)[old(s.current) := 0]
    ensures c.CleanupCall? ==> s.dead == Reap(s.isDetached, s.hasBeenJoined, old(s.dead), false)
  {
    hide Scheduler.Valid, Scheduler.Abs, Trace, Enqueue, EnqueueAll, Select, Reap, Shows, Ticks;
    if c.WakeCall? {
      states, steps := WakeAll(s, c.chan);
    } else if c.WakeThreadCall? || c.SpawnCall? || c.EndSleepCall? || c.CleanupCall? {
      states, steps := PerformQuietly(s, c);
    } else {
      states, steps := PerformStep(s, c);
    }
  }

  /** Calls that leave the current thread where it is. */
  method PerformQuietly(s: Scheduler, c: Call) returns (ghost states: seq<Queue>, ghost steps: seq<Step>)
    requires s.Valid() && (c.WakeThreadCall? || c.SpawnCall? || c.EndSleepCall? || c.CleanupCall?)
    modifies s
    ensures s.Valid() && Trace(states, steps) && states[0] == old(s.Abs()) && states[|steps|] == s.Abs()
    ensures Ticks(steps) == 0 && Removes(steps, c) && Shows(states, old(s.current), s.current)
    ensures c.WakeThreadCall? ==> s.Abs() == if c.t in old(s.blocked) then Enqueue(old(s.Abs()), c.t) else old(s.Abs())
    ensures c.SpawnCall? ==>
              s.Abs() == if c.memory && 0 < c.t < |old(s.next)| && c.t !in old(s.live) then Enqueue(old(s.Abs()), c.t)
                         else old(s.Abs())
    ensures c.EndSleepCall? && old(s.current) > 0 ==>
              old(s.current) < |old(s.wakeupTick)| && s.wakeupTick == old(s.wakeupTick)[old(s.current) := 0]
    ensures c.CleanupCall? ==> s.dead == Reap(s.isDetached, s.hasBeenJoined, old(s.dead), false)
  {
    hide Scheduler.Valid, Scheduler.Abs, Trace, Enqueue, Reap;
    ghost var q := s.Abs();
    AbsIsValid(s);
    states, steps := [q], [];
    StandStill(q);
    match c {
      case WakeThreadCall(t) =>
        steps := WakeThread(s, t);
      case SpawnCall(t, memory) =>
        steps := SpawnThread(s, t, memory);
      case EndSleepCall =>
        if s.current > 0 {
          s.EndSleep();
        }
      case CleanupCall =>
        s.CleanupZombies();
    }
    AbsIsValid(s);
    if steps != [] {
      OneStep(q, steps[0]);
      states := [q, s.Abs()];
    }
  }

  /** Calls after which another thread may be current. */
  method PerformStep(s: Scheduler, c: Call) returns (ghost states: seq<Queue>, ghost steps: seq<Step>)
    requires s.Valid()
    requires !c.WakeCall? && !c.WakeThreadCall? && !c.SpawnCall? && !c.EndSleepCall? && !c.CleanupCall?
    modifies s
    ensures s.Valid() && Trace(states, steps) && states[0] == old(s.Abs()) && states[|steps|] == s.Abs()
    ensures Ticks(steps) == if c.TickCall? then 1 else 0
    ensures Removes(steps, c) && Shows(states, old(s.current), s.current)
  {
    hide Scheduler.Valid, Scheduler.Abs, Trace, Enqueue, EnqueueAll, RoundRobin.Tick, Select, Without, LeaveHead;
    ghost var q := s.Abs();
    AbsIsValid(s);
    states, steps := [q], [];
    StandStill(q);
    match c {
      case TickCall(now) =>
        WokenAreNew(s, DueBy(now));
        steps := [TickStep(Select(DueBy(now), s.wakeupTick, s.waitChan, s.blocked, true))];
        s.Tick(now);
      case YieldCall =>
        steps := [if s.current > 0 then YieldStep else PickStep];
        s.Yield();
      case BlockCall(chan) =>
        if s.current > 0 {
          var blocks := s.Block(chan);
          steps := if blocks then [LeaveStep] else [];
        }
      case BlockTimeoutCall(chan, timeoutMs, now) =>
        if s.current > 0 && timeoutMs < UINT32 {
          var blocks := s.BlockTimeout(chan, timeoutMs, now);
          steps := if blocks then [LeaveStep] else [];
        }
      case ResumeCall(timeoutMs, timed) =>
        if s.current > 0 {
          var woken := s.Resume(timeoutMs, timed);
        }
      case SleepCall(ticks, now) =>
        if s.current > 0 {
          s.SleepTicks(ticks, now);
          steps := if ticks > 0 then [LeaveStep] else [];
        }
      case ExitCall =>
        if s.current > 0 {
          s.Exit();
          steps := [LeaveStep];
        }
      case ForceExitCall(t) =>
        var live := IsLive(s, t);
        if live && t != s.current {
          s.ForceExit(t);
          steps := [RemoveStep(t)];
        }
    }
    AbsIsValid(s);
    if steps != [] {
      OneStep(q, steps[0]);
      states := [q, s.Abs()];
    }
  }

  lemma StandStill(q: Queue)
    ensures Trace([q], []) && Ticks([]) == 0
  {
  }

  method WakeAll(s: Scheduler, chan: int) returns (ghost states: seq<Queue>, ghost steps: seq<Step>)
    requires s.Valid()
    modifies s
    ensures s.Valid() && Trace(states, steps) && states[0] == old(s.Abs()) && states[|steps|] == s.Abs()
    ensures Ticks(steps) == 0 && (forall t :: RemoveStep(t) !in steps) && Shows(states, old(s.current), s.current)
    ensures s.Abs() == EnqueueAll(old(s.Abs()),
                                  Select(OnChannel(chan), old(s.wakeupTick), old(s.waitChan), old(s.blocked), true))
  {
    hide Scheduler.Valid, Scheduler.Abs, Trace, Select, Ticks;
    AbsIsValid(s);
    WokenAreNew(s, OnChannel(chan));
    states, steps := WakeTrace(s.Abs(), Select(OnChannel(chan), s.wakeupTick, s.waitChan, s.blocked, true));
    s.WakeMatching(OnChannel(chan));
  }

  method WakeThread(s: Scheduler, t: nat) returns (ghost steps: seq<Step>)
    requires s.Valid()
    modifies s
    ensures s.Valid() && s.current == old(s.current)
    ensures || (steps == [] && s.Abs() == old(s.Abs()))
            || (steps == [WakeStep(t)] && t !in old(s.Abs()).threads && s.Abs() == Enqueue(old(s.Abs()), t))
    ensures s.Abs() == if t in old(s.blocked) then Enqueue(old(s.Abs()), t) else old(s.Abs())
  {
    hide Scheduler.Valid, Scheduler.Abs, Without, Enqueue;
    AbsIsValid(s);
    BlockedAreNotQueued(s);
    steps := [];
    var live := IsLive(s, t);
    if live {
      ghost var wakes := t in s.blocked;
      s.WakeupThread(t);
      steps := if wakes then [WakeStep(t)] else [];
    }
  }

  lemma BlockedAreNotQueued(s: Scheduler)
    requires s.Valid()
    ensures forall t :: t in s.blocked ==> t !in s.runq
  {
    hide Linked, States, OnCpu, TailsFull, Covers;
  }

  method SpawnThread(s: Scheduler, t: nat, memory: bool) returns (ghost steps: seq<Step>)
    requires s.Valid()
    modifies s
    ensures s.Valid() && s.current == old(s.current)
    ensures || (steps == [] && s.Abs() == old(s.Abs()))
            || (steps == [WakeStep(t)] && t !in old(s.Abs()).threads && s.Abs() == Enqueue(old(s.Abs()), t))
    ensures s.Abs() == if memory && 0 < t < |old(s.next)| && t !in old(s.live) then Enqueue(old(s.Abs()), t)
                       else old(s.Abs())
  {
    hide Scheduler.Valid, Scheduler.Abs, Enqueue;
    AbsIsValid(s);
    steps := [];
    var live := IsLive(s, t);
    if !live && 0 < t < |s.next| {
      var ok := s.Spawn(t, memory);
      steps := if ok then [WakeStep(t)] else [];
    }
  }

  // --------------------------------------------------------------- all calls

  function TickCalls(calls: seq<Call>): nat {
    if calls == [] then 0 else TickCalls(calls[..|calls| - 1]) + if calls[|calls| - 1].TickCall? then 1 else 0
  }

  /** The thread at position `k` waits and is not forced out, and the calls have ticks enough. */
  ghost predicate Entitled(q: Queue, k: nat, calls: seq<Call>) {
    && q.running && 0 < k < |q.threads| && ForceExitCall(q.threads[k]) !in calls
    && TickCalls(calls) >= q.slice + (k - 1) * CFG_DEF_TIME_SLICE
  }

  /** Any sequence of calls; `ran` are the threads on the CPU in between. A thread that waits at position
      `k` of the run queue gets the CPU once as many ticks have passed as the running thread has left
      plus a full slice for every other thread before it, whatever is called, unless it is forced out. */
  method RunAll(s: Scheduler, calls: seq<Call>) returns (ran: seq<int>)
    requires s.Valid()
    modifies s
    ensures s.Valid() && |ran| == |calls| + 1 && ran[0] == old(s.current) && ran[|calls|] == s.current
    ensures forall k: nat :: Entitled(old(s.Abs()), k, calls) ==> old(s.Abs()).threads[k] in ran
  {
    hide Scheduler.Valid, Scheduler.Abs, Trace, Shows, Ticks, Removes;
    AbsIsValid(s);
    ran := [s.current];
    ghost var q := s.Abs();
    ghost var states, steps := [q], [];
    StandStill(q);
    SeenStarts(q, s.current);
    for i := 0 to |calls|
      invariant s.Valid() && |ran| == i + 1 && ran[0] == old(s.current) && ran[i] == s.current
      invariant Trace(states, steps) && |states| == |steps| + 1 && states[0] == q && states[|steps|] == s.Abs()
      invariant Ticks(steps) == TickCalls(calls[..i]) && Seen(states, ran)
      invariant forall t :: RemoveStep(t) in steps ==> ForceExitCall(t) in calls
    {
      ghost var more, taken;
      more, taken := Perform(s, calls[i]);
      TraceLength(more, taken);
      JoinTraces(states, steps, more, taken);
      TicksJoin(steps, taken);
      SeenGrows(states, more, ran, s.current);
      RemovedBy(taken, calls[i]);
      assert calls[..i + 1][..i] == calls[..i];
      ran := ran + [s.current];
      states, steps := states + more[1..], steps + taken;
      TraceLength(states, steps);
    }
    assert calls[..|calls|] == calls;
    TraceIsRun(states, steps);
    forall k: nat | Entitled(q, k, calls)
      ensures q.threads[k] in ran
    {
      var t := q.threads[k];
      assert forall i :: 0 <= i < |steps| ==> steps[i] in steps && steps[i] != RemoveStep(t);
      WaitingIsBounded(states, steps, t, k);
      SeenAt(states, ran, t);
    }
  }

  lemma TraceLength(states: seq<Queue>, steps: seq<Step>)
    requires Trace(states, steps)
    ensures |states| == |steps| + 1
  {
  }

  lemma TraceIsRun(states: seq<Queue>, steps: seq<Step>)
    requires Trace(states, steps) && RoundRobin.Valid(states[0])
    ensures RoundRobin.Run(states, steps)
  {
  }

  /** Every thread the policy shows on the CPU was there between two calls. */
  ghost predicate Seen(states: seq<Queue>, ran: seq<int>) {
    forall q, t :: q in states && Runs(q, t) ==> t in ran
  }

  lemma SeenStarts(q: Queue, current: int)
    requires forall t :: Runs(q, t) ==> t == current
    ensures Seen([q], [current])
  {
  }

  lemma SeenGrows(a: seq<Queue>, b: seq<Queue>, ran: seq<int>, current: int)
    requires Seen(a, ran) && ran != [] && b != [] && Shows(b, ran[|ran| - 1], current)
    ensures Seen(a + b[1..], ran + [current])
  {
    hide Runs;
    forall q, t | q in a + b[1..] && Runs(q, t) ensures t in ran + [current] {
      assert q in a || q in b;
    }
  }

  lemma SeenAt(states: seq<Queue>, ran: seq<int>, t: nat)
    requires Seen(states, ran) && exists i :: 0 <= i < |states| && Runs(states[i], t)
    ensures t in ran
  {
  }

  lemma RemovedBy(steps: seq<Step>, c: Call)
    requires Removes(steps, c)
    ensures forall t :: RemoveStep(t) in steps ==> c == ForceExitCall(t)
  {
  }
}
