/**
  What the manager's ticks and commands do to one service, whatever the other services do: how long a
  silent service is waited for, when a delay ends, how a failure spreads, and when an ended service
  is started again.
  */
module ServiceTick {
  import opened Bytes
  import opened ServiceGraph
  import opened ServiceConfig
  import opened ServiceManager
  import opened ServiceLaunch

  // ------------------------------------------------------------------ one service in a loop

  /** An iteration changes no service but the one it looks at, and never the clock. */
  lemma OthersAreLeft(s: Setup, inp: Inputs, m: Manager, phase: Phase, n: nat, i: nat)
    requires Sized(s, m) && Fits(s, inp) && n < |m.rt| && i < |m.rt|
    ensures var r := Iteration(s, inp, m, phase, n);
            && r.ticks == m.ticks
            && ((if phase.Launches? then s.order[n] else n) != i ==> r.rt[i] == m.rt[i])
  {
    hide Valid, CanStart, RequiresFailed, ReadyDepended;
    OrderInRange(s, n);
  }

  lemma {:induction false} ClockIsLeft(s: Setup, inp: Inputs, m: Manager, phase: Phase, n: nat)
    requires Sized(s, m) && Fits(s, inp) && n <= |m.rt|
    ensures Loop(s, inp, m, phase, n).ticks == m.ticks
  {
    hide Iteration, Valid;
    if n > 0 {
      ClockIsLeft(s, inp, m, phase, n - 1);
      OthersAreLeft(s, inp, Loop(s, inp, m, phase, n - 1), phase, n - 1, 0);
    }
  }

  /** Before its own iteration a service is as it was. */
  lemma {:induction false} BeforeItsTurn(s: Setup, inp: Inputs, m: Manager, phase: Phase, n: nat, i: nat)
    requires Sized(s, m) && Fits(s, inp) && n <= i < |m.rt| && !phase.Launches?
    ensures Loop(s, inp, m, phase, n).rt[i] == m.rt[i]
  {
    hide Iteration, Valid;
    if n > 0 {
      BeforeItsTurn(s, inp, m, phase, n - 1, i);
      OthersAreLeft(s, inp, Loop(s, inp, m, phase, n - 1), phase, n - 1, i);
    }
  }

  /** From its own iteration on it stays as that iteration left it. */
  lemma {:induction false} AfterItsTurn(s: Setup, inp: Inputs, m: Manager, phase: Phase, n: nat, i: nat)
    requires Sized(s, m) && Fits(s, inp) && i < n <= |m.rt| && !phase.Launches?
    ensures Loop(s, inp, m, phase, n).rt[i] == Iteration(s, inp, Loop(s, inp, m, phase, i), phase, i).rt[i]
  {
    hide Iteration, Valid;
    if n > i + 1 {
      AfterItsTurn(s, inp, m, phase, n - 1, i);
      OthersAreLeft(s, inp, Loop(s, inp, m, phase, n - 1), phase, n - 1, i);
    }
  }

  /** The first three loops treat each service by itself. */
  lemma LoopIsLocal(s: Setup, inp: Inputs, m: Manager, phase: Phase, i: nat)
    requires Sized(s, m) && Fits(s, inp) && i < |m.rt| && phase in {Delays, Mounts, Timeouts}
    ensures Whole(s, inp, m, phase).rt[i] == Iteration(s, inp, m, phase, i).rt[i]
    ensures Whole(s, inp, m, phase).ticks == m.ticks
  {
    hide Loop, Valid, ReadyDepended;
    BeforeItsTurn(s, inp, m, phase, i, i);
    AfterItsTurn(s, inp, m, phase, |m.rt|, i);
    ClockIsLeft(s, inp, m, phase, |m.rt|);
    ClockIsLeft(s, inp, m, phase, i);
  }

  /** The last two loops change only pending services. */
  lemma {:induction false} OnlyPending(s: Setup, inp: Inputs, m: Manager, phase: Phase, n: nat, i: nat)
    requires Sized(s, m) && Fits(s, inp) && n <= |m.rt| && i < |m.rt| && phase in {Failures, Launches}
    requires !m.rt[i].state.Pending?
    ensures Loop(s, inp, m, phase, n).rt[i] == m.rt[i]
  {
    hide Valid, CanStart, RequiresFailed;
    if n > 0 {
      OnlyPending(s, inp, m, phase, n - 1, i);
      OrderInRange(s, n - 1);
    }
  }

  /** The clock of the tick from `m`. */
  function Now(m: Manager): nat {
    (m.ticks + 50) % 0x1_0000_0000
  }

  /** The tick as a sequence of what its loops do to service `i`. */
  lemma Stages(s: Setup, inp: Inputs, m: Manager, i: nat) returns (m1: Manager, m2: Manager, m3: Manager)
    requires Sized(s, m) && Fits(s, inp) && i < |m.rt|
    ensures |m1.rt| == |m2.rt| == |m3.rt| == |m.rt| && m1.ticks == m2.ticks == m3.ticks == Now(m)
    ensures m1.rt[i] == ProcessDelay(s, m.(ticks := Now(m)), i, inp.spawn[i]).rt[i]
    ensures m2.rt[i] == TryMount(s, m1, i, inp.mountOk[i]).rt[i]
    ensures m3.rt[i] == CheckTimeout(s, m2, i).rt[i]
    ensures Tick(s, inp, m) == Whole(s, inp, Whole(s, inp, m3, Failures), Launches)
    ensures Tick(s, inp, m).ticks == Now(m)
    ensures !m3.rt[i].state.Pending? ==> Tick(s, inp, m).rt[i] == m3.rt[i]
  {
    hide Loop, Valid, ProcessDelay, TryMount, CheckTimeout;
    var m0 := m.(ticks := Now(m));
    m1 := Whole(s, inp, m0, Delays);
    LoopIsLocal(s, inp, m0, Delays, i);
    m2 := Whole(s, inp, m1, Mounts);
    LoopIsLocal(s, inp, m1, Mounts, i);
    m3 := Whole(s, inp, m2, Timeouts);
    LoopIsLocal(s, inp, m2, Timeouts, i);
    var m4 := Whole(s, inp, m3, Failures);
    ClockIsLeft(s, inp, m3, Failures, |m.rt|);
    ClockIsLeft(s, inp, m4, Launches, |m.rt|);
    if !m3.rt[i].state.Pending? {
      OnlyPending(s, inp, m3, Failures, |m.rt|, i);
      OnlyPending(s, inp, m4, Launches, |m.rt|, i);
    }
  }

  /** A waiting service is started by the first tick at which its delay has passed, and not before. */
  lemma WaitingService(s: Setup, inp: Inputs, m: Manager, i: nat)
    requires Sized(s, m) && Fits(s, inp) && i < |m.rt| && m.rt[i].state == Waiting
    ensures var rt, r := m.rt[i], Tick(s, inp, m).rt[i];
            var due := (Now(m) - rt.delayStart) % 0x1_0000_0000 >= s.configs[i].delayMs;
            && (!due ==> r == rt)
            && (due && inp.spawn[i] < 0 ==> r.state == Failed)
            && (due && inp.spawn[i] >= 0 ==> r.state == Running && r.pid == inp.spawn[i] && r.startTicks == Now(m)
                                             && !r.reportedReady && !r.mounted && !r.ready && r.readyRetry == 0)
  {
    hide Whole, Valid, ReadyDepended, Tick;
    var m1, m2, m3 := Stages(s, inp, m, i);
  }

  /** A running service is mounted once it has reported ready; a failing mount fails it. */
  lemma ReportedService(s: Setup, inp: Inputs, m: Manager, i: nat)
    requires Sized(s, m) && Fits(s, inp) && i < |m.rt| && m.rt[i].state == Running && m.rt[i].reportedReady
    requires s.configs[i].mount != "" && !m.rt[i].mounted
    ensures var rt, r := m.rt[i], Tick(s, inp, m).rt[i];
            && (inp.mountOk[i] ==> r == rt.(mounted := true, ready := true))
            && (!inp.mountOk[i] ==> r == rt.(state := Failed))
  {
    hide Whole, Valid, ReadyDepended, Tick;
    var m1, m2, m3 := Stages(s, inp, m, i);
  }

  /** Nothing else happens to a running service that is ready, or has been waited for less than 5 s. */
  lemma RunningService(s: Setup, inp: Inputs, m: Manager, i: nat)
    requires Sized(s, m) && Fits(s, inp) && i < |m.rt| && m.rt[i].state == Running
    requires s.configs[i].mount == "" || !m.rt[i].reportedReady || m.rt[i].mounted
    requires m.rt[i].ready || (Now(m) - m.rt[i].startTicks) % 0x1_0000_0000 < 5000
    ensures Tick(s, inp, m).rt[i] == m.rt[i]
  {
    hide Whole, Valid, ReadyDepended, Tick;
    var m1, m2, m3 := Stages(s, inp, m, i);
  }

  /** Ticks leave services alone that have stopped or failed. */
  lemma EndedService(s: Setup, inp: Inputs, m: Manager, i: nat)
    requires Sized(s, m) && Fits(s, inp) && i < |m.rt| && m.rt[i].state in {Stopped, Failed}
    ensures Tick(s, inp, m).rt[i] == m.rt[i]
  {
    hide Whole, Valid, ReadyDepended, Tick;
    var m1, m2, m3 := Stages(s, inp, m, i);
  }

  // ------------------------------------------------------------------- failures spread

  lemma PendingStages(s: Setup, inp: Inputs, m: Manager, i: nat) returns (m3: Manager)
    requires Sized(s, m) && Fits(s, inp) && i < |m.rt|
    ensures |m3.rt| == |m.rt| && Tick(s, inp, m) == Whole(s, inp, Whole(s, inp, m3, Failures), Launches)
    ensures m.rt[i].state.Pending? ==> m3.rt[i] == m.rt[i]
    ensures forall d :: 0 <= d < |m.rt| && m.rt[d].state.Failed? ==> m3.rt[d] == m.rt[d]
  {
    hide Loop, Valid, ReadyDepended;
    var m0 := m.(ticks := Now(m));
    var m1 := Whole(s, inp, m0, Delays);
    var m2 := Whole(s, inp, m1, Mounts);
    m3 := Whole(s, inp, m2, Timeouts);
    forall d | 0 <= d < |m.rt| && (m.rt[d].state.Failed? || m.rt[d].state.Pending?) ensures m3.rt[d] == m.rt[d] {
      LoopIsLocal(s, inp, m0, Delays, d);
      LoopIsLocal(s, inp, m1, Mounts, d);
      LoopIsLocal(s, inp, m2, Timeouts, d);
    }
  }

  /** A pending service fails in the tick that finds one of its requirements failed. */
  lemma FailureSpreads(s: Setup, inp: Inputs, m: Manager, i: nat, name: string)
    requires Sized(s, m) && Fits(s, inp) && i < |m.rt| && m.rt[i].state == Pending
    requires name in s.configs[i].ready && HasFailed(s, m, name)
    ensures Tick(s, inp, m).rt[i] == m.rt[i].(state := Failed)
  {
    hide Loop, Valid, Tick;
    var m3 := PendingStages(s, inp, m, i);
    var d := FindByName(s.configs, name);
    BeforeItsTurn(s, inp, m3, Failures, i, i);
    var x := Loop(s, inp, m3, Failures, i);
    OnlyPending(s, inp, m3, Failures, i, d);
    assert Known(s.configs, name) && NameFailed(s, x.rt, name);
    AfterItsTurn(s, inp, m3, Failures, |m.rt|, i);
    OnlyPending(s, inp, Whole(s, inp, m3, Failures), Launches, |m.rt|, i);
  }

  ghost predicate HasFailed(s: Setup, m: Manager, name: string) {
    var d := FindByName(s.configs, name);
    0 <= d < |m.rt| && m.rt[d].state == Failed
  }

  /** And a pending service fails for no other reason than that or a failing start. */
  lemma FailureHasReason(s: Setup, inp: Inputs, m: Manager, i: nat)
    requires Sized(s, m) && Fits(s, inp) && i < |m.rt| && m.rt[i].state == Pending
    requires Tick(s, inp, m).rt[i].state == Failed
    ensures inp.spawn[i] < 0 || exists name :: name in s.configs[i].ready && HasFailed(s, Tick(s, inp, m), name)
  {
    hide Loop, Valid, Tick;
    var m3 := PendingStages(s, inp, m, i);
    var x, m4 := Loop(s, inp, m3, Failures, i), Whole(s, inp, m3, Failures);
    BeforeItsTurn(s, inp, m3, Failures, i, i);
    AfterItsTurn(s, inp, m3, Failures, |m.rt|, i);
    if m4.rt[i].state.Failed? {
      var name :| name in s.configs[i].ready && NameFailed(s, x.rt, name);
      var d := FindByName(s.configs, name);
      FailedStays(s, inp, m3, Failures, i, |m.rt|, d);
      OnlyPending(s, inp, m4, Launches, |m.rt|, d);
      assert HasFailed(s, Tick(s, inp, m), name);
    } else if inp.spawn[i] >= 0 {
      LaunchDoesNotFail(s, inp, m4, |m.rt|, i);
    }
  }

  lemma {:induction false} FailedStays(s: Setup, inp: Inputs, m: Manager, phase: Phase, a: nat, n: nat, d: nat)
    requires Sized(s, m) && Fits(s, inp) && a <= n <= |m.rt| && d < |m.rt| && phase == Failures
    requires Loop(s, inp, m, phase, a).rt[d].state.Failed?
    ensures Loop(s, inp, m, phase, n).rt[d].state.Failed?
  {
    hide Valid, RequiresFailed;
    if n > a {
      FailedStays(s, inp, m, phase, a, n - 1, d);
    }
  }

  lemma {:induction false} LaunchDoesNotFail(s: Setup, inp: Inputs, m: Manager, n: nat, i: nat)
    requires Sized(s, m) && Fits(s, inp) && n <= |m.rt| && i < |m.rt| && inp.spawn[i] >= 0
    requires !m.rt[i].state.Failed?
    ensures !Loop(s, inp, m, Launches, n).rt[i].state.Failed?
  {
    hide Valid, CanStart;
    if n > 0 {
      LaunchDoesNotFail(s, inp, m, n - 1, i);
      OrderInRange(s, n - 1);
    }
  }

  // ------------------------------------------------------------ a service that is launched

  /** Service `i` has just been started with this pid. */
  ghost predicate JustStarted(m: Manager, i: nat, pid: int) {
    && i < |m.rt| && m.rt[i].state == Running && m.rt[i].pid == pid >= 0 && m.rt[i].startTicks == m.ticks
    && !m.rt[i].reportedReady && !m.rt[i].mounted && !m.rt[i].ready && m.rt[i].readyRetry == 0
  }

  /** What a tick can make of a pending service. */
  ghost predicate Launched(s: Setup, inp: Inputs, m: Manager, r: Manager, i: nat) {
    && i < |m.rt| == |r.rt| && i < |inp.spawn| && i < |s.configs|
    && match r.rt[i].state
       case Pending => r.rt[i] == m.rt[i]
       case Waiting => s.configs[i].delayMs > 0 && r.rt[i].delayStart == r.ticks
       case Running => s.configs[i].delayMs == 0 && JustStarted(r, i, inp.spawn[i])
       case Failed => true
       case Starting | Stopped => false
  }

  lemma {:induction false} LaunchLoop(s: Setup, inp: Inputs, m: Manager, n: nat, i: nat)
    requires Sized(s, m) && Fits(s, inp) && n <= |m.rt| && i < |m.rt| && m.rt[i].state in {Pending, Failed}
    ensures var r := Loop(s, inp, m, Launches, n);
            r.ticks == m.ticks && Launched(s, inp, m, r, i)
  {
    hide Valid, CanStart;
    if n > 0 {
      LaunchLoop(s, inp, m, n - 1, i);
      OrderInRange(s, n - 1);
    }
  }

  /** A pending service waits for its delay if it has one, and is started afresh if it has none. */
  lemma PendingService(s: Setup, inp: Inputs, m: Manager, i: nat)
    requires Sized(s, m) && Fits(s, inp) && i < |m.rt| && m.rt[i].state == Pending
    ensures Launched(s, inp, m, Tick(s, inp, m), i) && Tick(s, inp, m).ticks == Now(m)
  {
    hide Loop, Valid, Tick, Launched, RequiresFailed;
    var a1, a2, a3 := Stages(s, inp, m, i);
    var m3 := PendingStages(s, inp, m, i);
    var x, m4 := Loop(s, inp, m3, Failures, i), Whole(s, inp, m3, Failures);
    BeforeItsTurn(s, inp, m3, Failures, i, i);
    AfterItsTurn(s, inp, m3, Failures, |m.rt|, i);
    LaunchLoop(s, inp, m4, |m.rt|, i);
    LaunchedFrom(s, inp, m4, m, Tick(s, inp, m), i);
  }

  lemma LaunchedFrom(s: Setup, inp: Inputs, x: Manager, m: Manager, r: Manager, i: nat)
    requires Launched(s, inp, x, r, i) && |m.rt| == |x.rt|
    requires x.rt[i] == m.rt[i] || x.rt[i].state.Failed?
    ensures Launched(s, inp, m, r, i)
  {
  }

  // ------------------------------------------------------------------ a service that is silent

  function TickCount(ops: seq<Op>): nat {
    if ops == [] then 0 else TickCount(ops[..|ops| - 1]) + (if ops[|ops| - 1].TickOp? then 1 else 0)
  }

  /** The operation is not about service `i`, whose process is `pid`. */
  ghost predicate LeavesAlone(s: Setup, op: Op, i: nat, pid: int) {
    match op
    case TickOp(_) => true
    case Notify(name, _) => FindByName(s.configs, name) != i
    case Exit(p) => p != pid
    case StopCmd(name) => true
    case StartCmd(name) => FindByName(s.configs, name) != i
    case RestartCmd(_) => false
  }

  /** All of a service's state but whether it was stopped by hand. */
  function Core(rt: Runtime): Runtime {
    rt.(manualStop := false)
  }

  lemma OpLeavesAlone(s: Setup, m: Manager, op: Op, r: Manager, i: nat)
    requires Sized(s, m) && Step(s, m, op, r) && i < |m.rt| && LeavesAlone(s, op, i, m.rt[i].pid) && !op.TickOp?
    ensures i < |r.rt| && Core(r.rt[i]) == Core(m.rt[i]) && r.ticks == m.ticks
  {
    hide Valid;
  }

  lemma {:induction false} ClockRange(s: Setup, ops: seq<Op>, states: seq<Manager>, k: nat)
    requires Run(s, ops, states) && k <= |ops|
    ensures states[k].ticks < 0x1_0000_0000 && Sized(s, states[k])
  {
    hide Valid, Tick, Cascaded;
    RunIsSound(s, ops, states, k);
    if k > 0 {
      ClockRange(s, ops, states, k - 1);
      assert Step(s, states[k - 1], ops[k - 1], states[k]);
      if ops[k - 1].TickOp? {
        TickClock(s, ops[k - 1].inp, states[k - 1]);
      }
    }
  }

  lemma TickClock(s: Setup, inp: Inputs, m: Manager)
    requires Sized(s, m) && Fits(s, inp)
    ensures Tick(s, inp, m).ticks == Now(m)
  {
    hide Valid, Tick;
    if |m.rt| > 0 {
      var m1, m2, m3 := Stages(s, inp, m, 0);
    } else {
      EmptyTick(s, inp, m);
    }
  }

  lemma EmptyTick(s: Setup, inp: Inputs, m: Manager)
    requires Sized(s, m) && Fits(s, inp) && |m.rt| == 0
    ensures Tick(s, inp, m).ticks == Now(m)
  {
    hide Valid;
  }

  /** After `t` ticks since its start at `t0` a required service has not reported, and has been asked again
      every 100 ticks. */
  ghost predicate Silent(rt: Runtime, pid: int, t0: nat, t: nat) {
    && rt.state == Running && rt.pid == pid && !rt.reportedReady && !rt.ready
    && rt.readyRetry == t / 100 && rt.startTicks == (t0 + 5000 * (t / 100)) % 0x1_0000_0000
  }

  lemma Elapsed(t0: nat, t: nat)
    ensures ((t0 + 50 * t) % 0x1_0000_0000 + 50) % 0x1_0000_0000 == (t0 + 50 * (t + 1)) % 0x1_0000_0000
    ensures ((t0 + 50 * (t + 1)) % 0x1_0000_0000 - (t0 + 5000 * (t / 100)) % 0x1_0000_0000) % 0x1_0000_0000
            == 50 * (t % 100 + 1)
  {
    RestThenAdd(t0 + 50 * t, 50);
    var x, y := t0 + 50 * (t + 1), t0 + 5000 * (t / 100);
    RestThenAdd(x, -(y % UINT32));
    RestThenAdd(y, -x);
    assert x - y == 50 * (t % 100 + 1);
    SameRest(x - y % UINT32, y / UINT32);
    assert x - y % UINT32 - y / UINT32 * UINT32 == x - y;
  }

  /** The state of service `i`, `t` ticks after its start at `t0`: a service others require fails at the
      300th tick, after 5 s and twice 5 s more; one that nobody requires counts as ready from the 100th. */
  ghost predicate Awaited(s: Setup, m: Manager, i: nat, pid: int, t0: nat, t: nat)
    requires i < |m.rt| == |s.configs|
  {
    var rt := m.rt[i];
    var required := exists j :: 0 <= j < |s.configs| && j != i && s.configs[i].name in s.configs[j].ready;
    && m.ticks == (t0 + 50 * t) % 0x1_0000_0000 && rt.pid == pid
    && if required then if t < 300 then Silent(rt, pid, t0, t) else rt.state == Failed
       else if t < 100 then Silent(rt, pid, t0, t) else rt.state == Running && rt.ready && !rt.reportedReady
  }

  lemma AwaitedTick(s: Setup, inp: Inputs, m: Manager, i: nat, pid: int, t0: nat, t: nat)
    requires Sized(s, m) && Fits(s, inp) && i < |m.rt| && Awaited(s, m, i, pid, t0, t)
    ensures Awaited(s, Tick(s, inp, m), i, pid, t0, t + 1)
  {
    hide Whole, Valid, Tick, ReadyDepended;
    var m1, m2, m3 := Stages(s, inp, m, i);
    Elapsed(t0, t);
    assert ReadyDepended(s.configs, i) <==>
           exists j :: 0 <= j < |s.configs| && j != i && s.configs[i].name in s.configs[j].ready by {
      DependedIs(s.configs, i);
    }
    assert (t + 1) / 100 == t / 100 + (if t % 100 == 99 then 1 else 0);
    assert t % 100 == 99 ==> t0 + 5000 * ((t + 1) / 100) == t0 + 50 * (t + 1);
  }

  lemma DependedIs(configs: seq<Config>, i: nat)
    requires i < |configs|
    ensures ReadyDepended(configs, i) <==>
            exists j :: 0 <= j < |configs| && j != i && configs[i].name in configs[j].ready
  {
  }

  lemma AwaitedStep(s: Setup, m: Manager, op: Op, r: Manager, i: nat, pid: int, t0: nat, t: nat)
    requires Sized(s, m) && Sized(s, r) && Step(s, m, op, r) && i < |m.rt| && LeavesAlone(s, op, i, pid)
    requires Awaited(s, m, i, pid, t0, t)
    ensures Awaited(s, r, i, pid, t0, if op.TickOp? then t + 1 else t)
  {
    hide Valid, Tick;
    if op.TickOp? {
      AwaitedTick(s, op.inp, m, i, pid, t0, t);
    } else {
      OpLeavesAlone(s, m, op, r, i);
    }
  }

  /** In every run: what becomes of a service that does not report ready after its start. */
  lemma {:induction false} SilentService(s: Setup, ops: seq<Op>, states: seq<Manager>, a: nat, k: nat, i: nat, pid: int)
    requires Run(s, ops, states) && a <= k <= |ops| && i < |s.configs| && JustStarted(states[a], i, pid)
    requires forall j :: a <= j < k ==> LeavesAlone(s, ops[j], i, pid)
    ensures Sized(s, states[k]) && Awaited(s, states[k], i, pid, states[a].ticks, TickCount(ops[a..k]))
  {
    hide Step, Valid, Awaited, LeavesAlone;
    ClockRange(s, ops, states, a);
    ClockRange(s, ops, states, k);
    if k == a {
      assert ops[a..k] == [];
      AwaitedAtFirst(s, states[a], i, pid);
    } else {
      SilentService(s, ops, states, a, k - 1, i, pid);
      assert ops[a..k][..k - a - 1] == ops[a..k - 1];
      AwaitedStep(s, states[k - 1], ops[k - 1], states[k], i, pid, states[a].ticks, TickCount(ops[a..k - 1]));
    }
  }

  lemma AwaitedAtFirst(s: Setup, m: Manager, i: nat, pid: int)
    requires Sized(s, m) && JustStarted(m, i, pid) && m.ticks < 0x1_0000_0000
    ensures Awaited(s, m, i, pid, m.ticks, 0)
  {
  }

  // ------------------------------------------------------------------ a service that is delayed

  /** Service `i` began to wait at state `a`, and nothing but ticks concerns it until state `k`. */
  ghost predicate Waits(s: Setup, ops: seq<Op>, states: seq<Manager>, a: nat, k: nat, i: nat) {
    && Run(s, ops, states) && a <= k <= |ops| && i < |s.configs| && i < |states[a].rt|
    && states[a].rt[i].state == Waiting && states[a].rt[i].delayStart == states[a].ticks
    && (forall j :: a <= j < k ==> LeavesAlone(s, ops[j], i, states[a].rt[i].pid))
  }

  /** In every run, a delayed service goes on waiting as long as the clock has not passed its delay. */
  lemma {:induction false} StillWaits(s: Setup, ops: seq<Op>, states: seq<Manager>, a: nat, k: nat, i: nat)
    requires Waits(s, ops, states, a, k, i)
    requires forall n :: 0 <= n <= TickCount(ops[a..k]) ==> Passed(n) < s.configs[i].delayMs
    ensures Sized(s, states[k]) && Core(states[k].rt[i]) == Core(states[a].rt[i])
    ensures states[k].ticks == (states[a].ticks + 50 * TickCount(ops[a..k])) % 0x1_0000_0000
  {
    hide Step, Valid, LeavesAlone, Passed, Core;
    ClockRange(s, ops, states, k);
    if k == a {
      assert ops[a..k] == [];
    } else {
      assert ops[a..k][..k - a - 1] == ops[a..k - 1];
      StillWaits(s, ops, states, a, k - 1, i);
      DelayedStep(s, states[k - 1], ops[k - 1], states[k], i, states[a], TickCount(ops[a..k - 1]));
    }
  }

  /** And it is started, or its start fails, by the first tick at which it has. */
  lemma DelayedService(s: Setup, ops: seq<Op>, states: seq<Manager>, a: nat, k: nat, i: nat)
    requires Waits(s, ops, states, a, k, i) && k < |ops| && ops[k].TickOp?
    requires forall n :: 0 <= n <= TickCount(ops[a..k]) ==> Passed(n) < s.configs[i].delayMs
    ensures Sized(s, states[k + 1]) && Fits(s, ops[k].inp)
    ensures var due := Passed(TickCount(ops[a..k]) + 1) >= s.configs[i].delayMs;
            states[k + 1].rt[i].state ==
            if !due then Waiting else if ops[k].inp.spawn[i] < 0 then Failed else Running
  {
    hide Step, Valid, LeavesAlone, Passed, TickCount;
    ClockRange(s, ops, states, k + 1);
    StillWaits(s, ops, states, a, k, i);
    StepIsTick(s, states[k], ops[k], states[k + 1]);
    WaitingService(s, ops[k].inp, states[k], i);
    Passing(states[a].ticks, TickCount(ops[a..k]));
  }

  /** What the clock shows `n` ticks after it showed 0. */
  function Passed(n: nat): nat {
    50 * n % 0x1_0000_0000
  }

  lemma StepIsTick(s: Setup, m: Manager, op: Op, r: Manager)
    requires Sized(s, m) && Step(s, m, op, r) && op.TickOp?
    ensures Fits(s, op.inp) && r == Tick(s, op.inp, m)
  {
  }

  lemma Passing(t0: nat, t: nat)
    ensures ((t0 + 50 * t) % 0x1_0000_0000 + 50) % 0x1_0000_0000 == (t0 + 50 * (t + 1)) % 0x1_0000_0000
    ensures ((t0 + 50 * (t + 1)) % 0x1_0000_0000 - t0) % 0x1_0000_0000 == Passed(t + 1)
  {
    RestThenAdd(t0 + 50 * t, 50);
    RestThenAdd(t0 + 50 * (t + 1), 0 - t0);
  }

  lemma DelayedStep(s: Setup, m: Manager, op: Op, r: Manager, i: nat, m0: Manager, t: nat)
    requires Sized(s, m) && Sized(s, r) && Step(s, m, op, r) && i < |m.rt| && i < |m0.rt|
    requires m0.rt[i].state == Waiting && m0.rt[i].delayStart == m0.ticks && Core(m.rt[i]) == Core(m0.rt[i])
    requires LeavesAlone(s, op, i, m0.rt[i].pid) && m.ticks == (m0.ticks + 50 * t) % 0x1_0000_0000
    requires op.TickOp? ==> Passed(t + 1) < s.configs[i].delayMs
    ensures Core(r.rt[i]) == Core(m0.rt[i])
    ensures r.ticks == (m0.ticks + 50 * (if op.TickOp? then t + 1 else t)) % 0x1_0000_0000
  {
    hide Valid, Tick;
    if op.TickOp? {
      Passing(m0.ticks, t);
      WaitingService(s, op.inp, m, i);
      TickClock(s, op.inp, m);
    } else {
      OpLeavesAlone(s, m, op, r, i);
    }
  }

  // ------------------------------------------------------- stopped by hand, or started again

  /** Only a start or restart command takes back that a service was stopped by hand. */
  lemma StopIsKept(s: Setup, m: Manager, op: Op, r: Manager, i: nat)
    requires Sized(s, m) && Step(s, m, op, r) && i < |m.rt| && !op.StartCmd? && !op.RestartCmd?
    ensures i < |r.rt| && (m.rt[i].manualStop ==> r.rt[i].manualStop)
    ensures op != StopCmd(s.configs[i].name) && !m.rt[i].manualStop ==> !r.rt[i].manualStop
  {
    hide Valid, Tick;
    if op.TickOp? {
      TickKeepsStop(s, op.inp, m, i);
    }
  }

  lemma TickKeepsStop(s: Setup, inp: Inputs, m: Manager, i: nat)
    requires Sized(s, m) && Fits(s, inp) && i < |m.rt|
    ensures Tick(s, inp, m).rt[i].manualStop == m.rt[i].manualStop
  {
    hide Loop, Valid;
    var m0 := m.(ticks := Now(m));
    var m1 := Whole(s, inp, m0, Delays);
    var m2 := Whole(s, inp, m1, Mounts);
    var m3 := Whole(s, inp, m2, Timeouts);
    LoopKeepsStop(s, inp, m0, Delays, |m.rt|, i);
    LoopKeepsStop(s, inp, m1, Mounts, |m.rt|, i);
    LoopKeepsStop(s, inp, m2, Timeouts, |m.rt|, i);
    LoopKeepsStop(s, inp, m3, Failures, |m.rt|, i);
    LoopKeepsStop(s, inp, Whole(s, inp, m3, Failures), Launches, |m.rt|, i);
  }

  lemma {:induction false} LoopKeepsStop(s: Setup, inp: Inputs, m: Manager, phase: Phase, n: nat, i: nat)
    requires Sized(s, m) && Fits(s, inp) && n <= |m.rt| && i < |m.rt|
    ensures Loop(s, inp, m, phase, n).rt[i].manualStop == m.rt[i].manualStop
  {
    hide Valid, Iteration;
    if n > 0 {
      LoopKeepsStop(s, inp, m, phase, n - 1, i);
      IterationKeepsStop(s, inp, Loop(s, inp, m, phase, n - 1), phase, n - 1, i);
    }
  }

  lemma IterationKeepsStop(s: Setup, inp: Inputs, m: Manager, phase: Phase, n: nat, i: nat)
    requires Sized(s, m) && Fits(s, inp) && n < |m.rt| && i < |m.rt|
    ensures Iteration(s, inp, m, phase, n).rt[i].manualStop == m.rt[i].manualStop
  {
    hide Valid, CanStart, RequiresFailed, ReadyDepended;
    OrderInRange(s, n);
  }

  ghost predicate NoStarts(ops: seq<Op>, from: nat, until: nat) {
    forall j :: from <= j < until && j < |ops| ==> !ops[j].StartCmd? && !ops[j].RestartCmd?
  }

  lemma {:induction false} StopIsRemembered(s: Setup, ops: seq<Op>, states: seq<Manager>, a: nat, k: nat, i: nat)
    requires Run(s, ops, states) && a < k <= |ops| && i < |s.configs|
    requires ops[a] == StopCmd(s.configs[i].name) && FindByName(s.configs, s.configs[i].name) == i
    requires i < |states[a].rt| && states[a].rt[i].state !in {Stopped, Failed} && NoStarts(ops, a, k)
    ensures Sized(s, states[k]) && states[k].rt[i].manualStop
  {
    hide Valid, Tick, Cascaded;
    ClockRange(s, ops, states, k);
    assert Step(s, states[k - 1], ops[k - 1], states[k]);
    if k > a + 1 {
      StopIsRemembered(s, ops, states, a, k - 1, i);
      StopIsKept(s, states[k - 1], ops[k - 1], states[k], i);
    }
  }

  /** In every run, the process of a service that was stopped by hand is not replaced when it ends: the
      service is stopped, and stays so until a start or restart command. */
  lemma {:induction false} StoppedStays(s: Setup, ops: seq<Op>, states: seq<Manager>, a: nat, b: nat, k: nat, i: nat)
    requires Run(s, ops, states) && a < b < k <= |ops| && i < |s.configs|
    requires ops[a] == StopCmd(s.configs[i].name) && FindByName(s.configs, s.configs[i].name) == i
    requires i < |states[a].rt| && states[a].rt[i].state !in {Stopped, Failed} && NoStarts(ops, a, k)
    requires EndsService(ops[b], states[b], i)
    ensures Sized(s, states[k]) && states[k].rt[i].state == Stopped
  {
    hide Valid, Tick, Cascaded;
    ClockRange(s, ops, states, k);
    assert Step(s, states[k - 1], ops[k - 1], states[k]);
    StopIsRemembered(s, ops, states, a, k - 1, i);
    if k > b + 1 {
      StoppedStays(s, ops, states, a, b, k - 1, i);
      if ops[k - 1].TickOp? {
        EndedService(s, ops[k - 1].inp, states[k - 1], i);
      }
    }
  }

  /** The operation reports the end of the process of service `i`, the first one with that pid. */
  ghost predicate EndsService(op: Op, m: Manager, i: nat) {
    && op.Exit? && i < |m.rt| && m.rt[i].pid == op.pid
    && forall j :: 0 <= j < i ==> m.rt[j].pid != op.pid
  }

  lemma {:induction false} NeverStopped(s: Setup, ops: seq<Op>, states: seq<Manager>, k: nat, i: nat)
    requires Run(s, ops, states) && k <= |ops| && i < |s.configs|
    requires forall j :: 0 <= j < k ==> ops[j] != StopCmd(s.configs[i].name)
    ensures Sized(s, states[k]) && !states[k].rt[i].manualStop
  {
    hide Valid, Tick, Affected;
    ClockRange(s, ops, states, k);
    if k > 0 {
      ClockRange(s, ops, states, k - 1);
      NeverStopped(s, ops, states, k - 1, i);
      assert Step(s, states[k - 1], ops[k - 1], states[k]);
      if !ops[k - 1].StartCmd? && !ops[k - 1].RestartCmd? {
        StopIsKept(s, states[k - 1], ops[k - 1], states[k], i);
      }
    }
  }

  /** A service that was never stopped by hand is to be started again when its process ends, if it is
      configured so, and is stopped otherwise. */
  lemma EndedIsReplaced(s: Setup, ops: seq<Op>, states: seq<Manager>, k: nat, i: nat)
    requires Run(s, ops, states) && k < |ops| && i < |s.configs|
    requires forall j :: 0 <= j < k ==> ops[j] != StopCmd(s.configs[i].name)
    requires EndsService(ops[k], states[k], i)
    ensures Sized(s, states[k + 1])
    ensures states[k + 1].rt[i].state == if s.configs[i].respawn then Pending else Stopped
    ensures var rt := states[k + 1].rt[i]; rt.pid == -1 && !rt.ready && !rt.reportedReady && !rt.mounted
  {
    hide Valid, Tick, Cascaded;
    NeverStopped(s, ops, states, k, i);
    ClockRange(s, ops, states, k + 1);
    assert Step(s, states[k], ops[k], states[k + 1]);
  }

  // ------------------------------------------------------------------ a service that reports

  /** A report by the service's own process makes it ready: at once if it has no mount, else at the next
      tick if it can be mounted. A report by another process does nothing. */
  lemma ReportMakesReady(s: Setup, m: Manager, name: string, pid: int, inp: Inputs, i: nat)
    requires Sized(s, m) && Fits(s, inp) && FindByName(s.configs, name) == i && m.rt[i].state == Running
    requires !m.rt[i].mounted
    ensures var r := ReadyNotification(s, m, name, pid);
            && (pid != m.rt[i].pid ==> r.rt == m.rt)
            && (pid == m.rt[i].pid && s.configs[i].mount == "" ==>
                  r.rt[i].ready && Tick(s, inp, r).rt[i] == r.rt[i])
            && (pid == m.rt[i].pid && s.configs[i].mount != "" && inp.mountOk[i] ==>
                  Tick(s, inp, r).rt[i].ready && Tick(s, inp, r).rt[i].state == Running)
            && (pid == m.rt[i].pid && s.configs[i].mount != "" && !inp.mountOk[i] ==>
                  Tick(s, inp, r).rt[i].state == Failed)
  {
    hide Valid, Tick;
    var r := ReadyNotification(s, m, name, pid);
    if pid == m.rt[i].pid {
      if s.configs[i].mount == "" {
        RunningService(s, inp, r, i);
      } else {
        ReportedService(s, inp, r, i);
      }
    }
  }

  // ------------------------------------------------------------------ a service that is restarted

  /** A restart resets the named service and any others it affects: they are to be started, not ready, and
      not stopped by hand any more. The rest is as before. */
  lemma RestartResets(s: Setup, m: Manager, name: string, r: Manager, i: nat)
    requires Sized(s, m) && Restarts(s, m, name, r) && i < |m.rt|
    ensures |r.rt| == |m.rt| && r.ticks == m.ticks
    ensures FindByName(s.configs, name) == i || r.rt[i] != m.rt[i] ==>
              r.rt[i].state == Pending && !r.rt[i].manualStop && !r.rt[i].ready
    ensures r.rt[i].pid == m.rt[i].pid
  {
    hide Valid, Affected;
  }
}
