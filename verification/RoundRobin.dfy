/**
  Round-robin on one CPU, on values: the run queue with the head's remaining slice, and the bound on
  how long a queued thread waits.
  */
module RoundRobin {
  import opened Lists

  const CFG_DEF_TIME_SLICE := 10

  /** `running`: the head of the queue is the current thread; otherwise the CPU idles. Every queued
      thread but the head holds a full slice; the head has `slice` ticks left. */
  datatype Queue = Queue(threads: seq<nat>, slice: nat, running: bool)

  ghost predicate Valid(q: Queue) {
    && Distinct(q.threads) && 0 < q.slice <= CFG_DEF_TIME_SLICE
    && (q.running ==> q.threads != [])
    && (!q.running ==> q.slice == CFG_DEF_TIME_SLICE)
  }

  function Enqueue(q: Queue, t: nat): Queue {
    q.(threads := q.threads + [t])
  }

  function EnqueueAll(q: Queue, ts: seq<nat>): Queue {
    q.(threads := q.threads + ts)
  }

  /** `schedule` when the current thread has just left the queue or the CPU was idle. */
  function PickNext(threads: seq<nat>): Queue {
    Queue(threads, CFG_DEF_TIME_SLICE, threads != [])
  }

  /** The head used up or gave up its slice. */
  function Rotate(q: Queue): Queue
    requires q.threads != []
  {
    PickNext(q.threads[1..] + [q.threads[0]])
  }

  function LeaveHead(q: Queue): Queue
    requires q.threads != []
  {
    PickNext(q.threads[1..])
  }

  /** One timer tick, after the threads in `due` were woken. */
  function Tick(q: Queue, due: seq<nat>): Queue {
    var q' := EnqueueAll(q, due);
    if !q'.running || q'.threads == [] then PickNext(q'.threads)
    else if q'.slice > 1 then q'.(slice := q'.slice - 1)
    else Rotate(q')
  }

  datatype Step =
    | TickStep(due: seq<nat>)
    | WakeStep(t: nat)      // a thread becomes ready: woken or spawned
    | PickStep              // the scheduler runs while the CPU idles
    | YieldStep             // the running thread yields
    | LeaveStep             // the running thread blocks, sleeps or exits
    | RemoveStep(t: nat)    // a queued thread that is not running is forced to exit

  ghost predicate Enabled(q: Queue, step: Step) {
    match step
    case TickStep(due) => Distinct(q.threads + due)
    case WakeStep(t) => t !in q.threads
    case PickStep => !q.running
    case YieldStep => q.running && q.threads != []
    case LeaveStep => q.running && q.threads != []
    case RemoveStep(t) => q.running && q.threads != [] ==> t != q.threads[0]
  }

  ghost function Next(q: Queue, step: Step): Queue
    requires Enabled(q, step)
  {
    match step
    case TickStep(due) => Tick(q, due)
    case WakeStep(t) => Enqueue(q, t)
    case PickStep => PickNext(q.threads)
    case YieldStep => Rotate(q)
    case LeaveStep => LeaveHead(q)
    case RemoveStep(t) => q.(threads := Without(q.threads, t))
  }

  lemma NextKeepsValid(q: Queue, step: Step)
    requires Valid(q) && Enabled(q, step)
    ensures Valid(Next(q, step))
  {
    match step
    case RemoveStep(t) =>
      WithoutFacts(q.threads, t, 0);
      assert q.running ==> q.threads[0] in Without(q.threads, t);
    case TickStep(due) =>
      var ts := q.threads + due;
      if ts != [] { assert Distinct(ts[1..] + [ts[0]]); }
    case YieldStep => assert Distinct(q.threads[1..] + [q.threads[0]]);
    case _ =>
  }

  // ------------------------------------------------------------ the waiting bound

  ghost predicate Waits(q: Queue, t: nat, k: nat) {
    q.running && 0 < k < |q.threads| && q.threads[k] == t
  }

  /** The ticks before the thread at position `k` runs at the latest. */
  function Bound(q: Queue, k: nat): int {
    q.slice + (k - 1) * CFG_DEF_TIME_SLICE
  }

  lemma RemoveLowersBound(q: Queue, x: nat, t: nat, k: nat) returns (k': nat)
    requires Valid(q) && Enabled(q, RemoveStep(x)) && Waits(q, t, k) && x != t
    ensures var q' := Next(q, RemoveStep(x)); Waits(q', t, k') && Bound(q', k') <= Bound(q, k)
  {
    WithoutPosition(q.threads, x, k);
    WithoutPosition(q.threads, x, 0);
    WithoutFacts(q.threads, x, 0);
    var r := Without(q.threads, x);
    assert r[0] == q.threads[0];
    k' := if k < |r| && r[k] == t then k else k - 1;
  }

  /** A step brings a waiting thread to the head, or keeps it waiting with a bound that never grows
      and drops by one at every tick. */
  lemma StepLowersBound(q: Queue, step: Step, t: nat, k: nat) returns (k': nat)
    requires Valid(q) && Enabled(q, step) && Waits(q, t, k) && step != RemoveStep(t)
    ensures var q' := Next(q, step);
            || (q'.running && q'.threads != [] && q'.threads[0] == t)
            || (Waits(q', t, k') && Bound(q', k') <= Bound(q, k) - if step.TickStep? then 1 else 0)
  {
    k' := k;
    match step
    case RemoveStep(x) => k' := RemoveLowersBound(q, x, t, k);
    case TickStep(_) => if q.slice == 1 { k' := k - 1; }
    case YieldStep => k' := k - 1;
    case LeaveStep => k' := k - 1;
    case _ =>
  }

  ghost predicate Run(states: seq<Queue>, steps: seq<Step>) {
    && |states| == |steps| + 1 && Valid(states[0])
    && forall i :: 0 <= i < |steps| ==> Enabled(states[i], steps[i]) && states[i + 1] == Next(states[i], steps[i])
  }

  function Ticks(steps: seq<Step>): nat {
    if steps == [] then 0 else Ticks(steps[..|steps| - 1]) + if steps[|steps| - 1].TickStep? then 1 else 0
  }

  ghost predicate Runs(q: Queue, t: nat) {
    q.running && q.threads != [] && q.threads[0] == t
  }

  lemma {:induction false} WaitSoFar(states: seq<Queue>, steps: seq<Step>, t: nat, k: nat, n: nat) returns (k': nat)
    requires Run(states, steps) && Waits(states[0], t, k) && n <= |steps|
    requires forall i :: 0 <= i < |steps| ==> steps[i] != RemoveStep(t)
    requires forall i :: 0 <= i <= n ==> !Runs(states[i], t)
    ensures Valid(states[n]) && Waits(states[n], t, k')
    ensures Bound(states[n], k') + Ticks(steps[..n]) <= Bound(states[0], k)
  {
    hide Next, Enabled;
    if n == 0 {
      k' := k;
    } else {
      var j := WaitSoFar(states, steps, t, k, n - 1);
      NextKeepsValid(states[n - 1], steps[n - 1]);
      k' := StepLowersBound(states[n - 1], steps[n - 1], t, j);
      assert steps[..n][..n - 1] == steps[..n - 1];
      assert !Runs(states[n], t);
    }
  }

  /** A thread at position `k` behind a running head with `r` ticks left runs before
      `r + (k - 1) * CFG_DEF_TIME_SLICE` ticks have passed, whatever the other threads do, unless it
      is itself forced to exit. */
  lemma WaitingIsBounded(states: seq<Queue>, steps: seq<Step>, t: nat, k: nat)
    requires Run(states, steps) && Waits(states[0], t, k)
    requires forall i :: 0 <= i < |steps| ==> steps[i] != RemoveStep(t)
    requires Ticks(steps) >= states[0].slice + (k - 1) * CFG_DEF_TIME_SLICE
    ensures exists i :: 0 <= i <= |steps| && Runs(states[i], t)
  {
    assert steps[..|steps|] == steps;
    if forall i :: 0 <= i <= |steps| ==> !Runs(states[i], t) {
      var k' := WaitSoFar(states, steps, t, k, |steps|);
      assert false;
    }
  }

  // ------------------------------------------------------------------ how long a slice is

  /** A thread that is picked has ten ticks before it. */
  lemma FullSlice(threads: seq<nat>)
    ensures PickNext(threads).slice == 10 && PickNext(threads).threads == threads
  {
  }

  /** As long as threads are only woken and its slice is not used up, the running thread keeps the CPU; it
      goes to the end of the queue with the last tick of its slice. */
  lemma {:induction false} SliceLasts(states: seq<Queue>, steps: seq<Step>, n: nat)
    requires Run(states, steps) && states[0].running && n <= |steps|
    requires forall i :: 0 <= i < |steps| ==> steps[i].TickStep? || steps[i].WakeStep?
    requires Ticks(steps[..n]) < states[0].slice
    ensures Valid(states[n]) && states[n].running && states[n].slice == states[0].slice - Ticks(steps[..n])
    ensures states[0].threads <= states[n].threads
    ensures n < |steps| && steps[n].TickStep? && states[n].slice == 1 ==>
              states[n + 1].threads == (states[n].threads + steps[n].due)[1..] + [states[0].threads[0]]
  {
    if n > 0 {
      assert steps[..n][..n - 1] == steps[..n - 1];
      SliceLasts(states, steps, n - 1);
      NextKeepsValid(states[n - 1], steps[n - 1]);
    }
  }
}
