/**
  What init can rely on at the moment it starts a service: without a start delay everything the
  service requires is up; with one it need not be, because the end of a delay looks at nothing but
  the clock.
  */
module ServiceLaunch {
  import opened Bytes
  import opened ServiceGraph
  import opened ServiceConfig
  import opened ServiceManager

  // ------------------------------------------------------------ moments of a tick

  /** The state of a tick from `m` at the beginning of one of its loops. */
  ghost function Entering(s: Setup, inp: Inputs, m: Manager, phase: Phase): (r: Manager)
    requires Sized(s, m) && Fits(s, inp)
    ensures |r.rt| == |m.rt|
    decreases phase.Launches?, phase.Failures?, phase.Timeouts?, phase.Mounts?
  {
    match phase
    case Delays => m.(ticks := (m.ticks + TICK_MS) % UINT32)
    case Mounts => Whole(s, inp, Entering(s, inp, m, Delays), Delays)
    case Timeouts => Whole(s, inp, Entering(s, inp, m, Mounts), Mounts)
    case Failures => Whole(s, inp, Entering(s, inp, m, Timeouts), Timeouts)
    case Launches => Whole(s, inp, Entering(s, inp, m, Failures), Failures)
  }

  /** The state before iteration `n` of one of the loops. */
  ghost function Moment(s: Setup, inp: Inputs, m: Manager, phase: Phase, n: nat): (r: Manager)
    requires Sized(s, m) && Fits(s, inp) && n <= |m.rt|
    ensures |r.rt| == |m.rt|
  {
    Loop(s, inp, Entering(s, inp, m, phase), phase, n)
  }

  /** The step from `m` to `r` starts service `i`. */
  ghost predicate Starts(m: Manager, r: Manager, i: nat) {
    exists pid :: r.history == m.history + [StartedAs(i, pid)]
  }

  /** The service of this name runs, and has reported ready and been mounted since its start. */
  ghost predicate IsUp(s: Setup, m: Manager, name: string) {
    var d := FindByName(s.configs, name);
    && 0 <= d < |m.rt| && m.rt[d].state.Running?
    && Since(m.history, d, m.rt[d].pid, ReportedBy(d, m.rt[d].pid))
    && (s.configs[d].mount != "" ==> Since(m.history, d, m.rt[d].pid, MountedBy(d, m.rt[d].pid)))
  }

  /** The service of this name has had its turn: it is not waiting to be started any more. */
  ghost predicate HadItsTurn(s: Setup, m: Manager, name: string) {
    var d := FindByName(s.configs, name);
    0 <= d < |m.rt| && m.rt[d].state != Pending && m.rt[d].state != Waiting
  }

  /** Everything the service requires is up, and everything it comes after has had its turn. */
  ghost predicate RequirementsUp(s: Setup, m: Manager, i: nat) {
    && i < |s.configs| && (forall name :: name in s.configs[i].ready ==> IsUp(s, m, name))
    && (forall name :: name in s.configs[i].after ==> HadItsTurn(s, m, name))
  }

  /** Whenever the tick from `m` starts service `i`, what it requires is up. */
  ghost predicate Backed(s: Setup, inp: Inputs, m: Manager, i: nat)
    requires Sized(s, m) && Fits(s, inp)
  {
    forall phase: Phase, n: nat :: n < |m.rt| ==> BackedAt(s, inp, m, phase, n, i)
  }

  ghost predicate BackedAt(s: Setup, inp: Inputs, m: Manager, phase: Phase, n: nat, i: nat)
    requires Sized(s, m) && Fits(s, inp) && n < |m.rt|
  {
    var x := Moment(s, inp, m, phase, n);
    Starts(x, Iteration(s, inp, x, phase, n), i) ==> RequirementsUp(s, x, i)
  }

  // --------------------------------------------------------- what the clock allows

  /** Times are even, and only a service with a start delay waits. */
  ghost predicate Timed(s: Setup, m: Manager) {
    && Sized(s, m) && m.ticks % 2 == 0
    && forall i :: 0 <= i < |m.rt| ==>
         m.rt[i].delayStart % 2 == 0 && (m.rt[i].state.Waiting? ==> s.configs[i].delayMs > 0)
  }

  lemma IterationIsTimed(s: Setup, inp: Inputs, m: Manager, phase: Phase, n: nat)
    requires Timed(s, m) && Fits(s, inp) && n < |m.rt|
    ensures Timed(s, Iteration(s, inp, m, phase, n))
  {
    hide Valid, CanStart, RequiresFailed, ReadyDepended;
    OrderInRange(s, n);
  }

  lemma {:induction false} LoopIsTimed(s: Setup, inp: Inputs, m: Manager, phase: Phase, n: nat)
    requires Timed(s, m) && Fits(s, inp) && n <= |m.rt|
    ensures Timed(s, Loop(s, inp, m, phase, n))
  {
    hide Iteration, Timed;
    TimedIsSized(s, m);
    if n > 0 {
      LoopIsTimed(s, inp, m, phase, n - 1);
      TimedIsSized(s, Loop(s, inp, m, phase, n - 1));
      IterationIsTimed(s, inp, Loop(s, inp, m, phase, n - 1), phase, n - 1);
    }
  }

  lemma TimedIsSized(s: Setup, m: Manager)
    requires Timed(s, m)
    ensures Sized(s, m)
  {
  }

  /** Soundness and timing hold at every moment of a tick. */
  lemma {:induction false} MomentIsTimed(s: Setup, inp: Inputs, m: Manager, phase: Phase, n: nat)
    requires Sound(s, m) && Timed(s, m) && Fits(s, inp) && n <= |m.rt|
    ensures Sound(s, Moment(s, inp, m, phase, n)) && Timed(s, Moment(s, inp, m, phase, n))
    decreases phase.Launches?, phase.Failures?, phase.Timeouts?, phase.Mounts?
  {
    hide Loop, Valid;
    match phase {
      case Delays =>
        var m0 := m.(ticks := (m.ticks + TICK_MS) % UINT32);
        assert forall i :: 0 <= i < |m.rt| && ServiceSound(s, m, i) ==> ServiceSound(s, m0, i);
      case Mounts => MomentIsTimed(s, inp, m, Delays, |m.rt|);
      case Timeouts => MomentIsTimed(s, inp, m, Mounts, |m.rt|);
      case Failures => MomentIsTimed(s, inp, m, Timeouts, |m.rt|);
      case Launches => MomentIsTimed(s, inp, m, Failures, |m.rt|);
    }
    LoopIsSound(s, inp, Entering(s, inp, m, phase), phase, n);
    LoopIsTimed(s, inp, Entering(s, inp, m, phase), phase, n);
  }

  lemma TickIsLastMoment(s: Setup, inp: Inputs, m: Manager)
    requires Sized(s, m) && Fits(s, inp)
    ensures Tick(s, inp, m) == Moment(s, inp, m, Launches, |m.rt|)
  {
    hide Loop, Valid;
  }

  lemma StepIsTimed(s: Setup, m: Manager, op: Op, r: Manager)
    requires Sound(s, m) && Timed(s, m) && Step(s, m, op, r)
    ensures Timed(s, r)
  {
    hide Valid, Tick, Affected, Moment, Sound;
    if op.TickOp? {
      TickIsLastMoment(s, op.inp, m);
      MomentIsTimed(s, op.inp, m, Launches, |m.rt|);
    }
  }

  lemma {:induction false} RunIsTimed(s: Setup, ops: seq<Op>, states: seq<Manager>, k: nat)
    requires Run(s, ops, states) && k <= |ops|
    ensures Sound(s, states[k]) && Timed(s, states[k])
  {
    hide Step, Sound;
    RunIsSound(s, ops, states, k);
    if k > 0 {
      RunIsTimed(s, ops, states, k - 1);
      StepIsTimed(s, states[k - 1], ops[k - 1], states[k]);
    }
  }

  // ------------------------------------------------------------ undelayed services

  lemma NoSelfDependency(g: Graph, order: seq<nat>, x: nat)
    requires Finished(g, order) && x in order
    ensures x < |g| && x !in g[x]
  {
    var a :| 0 <= a < |order| && order[a] == x;
    assert DependsWithin(g, order[a], order[..a]);
  }

  /** A service that may start has everything it requires up. */
  lemma CanStartIsBacked(s: Setup, m: Manager, i: nat)
    requires Sound(s, m) && i < |m.rt| && CanStart(s, m.rt, i)
    ensures RequirementsUp(s, m, i)
  {
    var c := s.configs[i];
    forall name | name in c.ready ensures IsUp(s, m, name) {
      assert ResolvableNode(s.configs, c);
      var d := FindByName(s.configs, name);
      var q :| 0 <= q < |c.ready| && c.ready[q] == name;
      assert s.deps[i][|c.after| + q] == Dependency(d, Requires);
      assert GraphOf(s.deps)[i][|c.after| + q] == d;
      NoSelfDependency(GraphOf(s.deps), s.order, i);
      assert ReadyDepended(s.configs, d);
      assert ServiceSound(s, m, d);
    }
    forall name | name in c.after ensures HadItsTurn(s, m, name) {
      AfterIsResolved(s, i, name);
      var q :| 0 <= q < |s.deps[i]| && s.deps[i][q] == Dependency(FindByName(s.configs, name), After);
      assert Satisfied(s.deps[i][q].kind, m.rt[s.deps[i][q].target]);
    }
  }

  lemma AfterIsResolved(s: Setup, i: nat, name: string)
    requires Valid(s) && i < |s.configs| && name in s.configs[i].after
    ensures i < |s.deps| && Known(s.configs, name)
    ensures exists q :: 0 <= q < |s.deps[i]| && s.deps[i][q] == Dependency(FindByName(s.configs, name), After)
  {
    var c := s.configs[i];
    assert ResolvableNode(s.configs, c);
    var q :| 0 <= q < |c.after| && c.after[q] == name;
    assert s.deps[i][q] == Dependency(FindByName(s.configs, name), After);
  }

  /** Which step can start service `i`: the end of its delay, or its launch. */
  lemma StartsHow(s: Setup, inp: Inputs, m: Manager, phase: Phase, n: nat, i: nat)
    requires Sized(s, m) && Fits(s, inp) && n < |m.rt|
    requires Starts(m, Iteration(s, inp, m, phase, n), i)
    ensures i < |m.rt| && s.order[n] < |m.rt|
    ensures || (phase == Delays && n == i && m.rt[i].state.Waiting?
                && (m.ticks - m.rt[i].delayStart) % UINT32 >= s.configs[i].delayMs)
            || (phase == Launches && s.order[n] == i && CanStart(s, m.rt, i) && s.configs[i].delayMs == 0)
  {
    hide Valid, CanStart, RequiresFailed, ReadyDepended;
    OrderInRange(s, n);
    var r := Iteration(s, inp, m, phase, n);
    var pid :| r.history == m.history + [StartedAs(i, pid)];
    assert r.history[|m.history|] == StartedAs(i, pid);
  }

  /** In every run, whenever a service without a start delay, or with one that never ends, is started,
      everything it requires is up. */
  lemma StartedWithItsRequirements(s: Setup, ops: seq<Op>, states: seq<Manager>, k: nat, i: nat)
    requires Run(s, ops, states) && k < |ops| && ops[k].TickOp? && Fits(s, ops[k].inp)
    requires i < |s.configs| && NeverLate(s.configs[i].delayMs)
    ensures Sized(s, states[k]) && Backed(s, ops[k].inp, states[k], i)
  {
    hide Step, Sound, Timed, Moment, Iteration, Valid;
    RunIsTimed(s, ops, states, k);
    var inp, m := ops[k].inp, states[k];
    TimedIsSized(s, m);
    forall phase: Phase, n: nat | n < |m.rt| ensures BackedAt(s, inp, m, phase, n, i) {
      MomentIsTimed(s, inp, m, phase, n);
      StartIsBacked(s, inp, Moment(s, inp, m, phase, n), phase, n, i);
    }
  }

  /** A delay of 0 is none, and one that exceeds every difference of two even times never ends. */
  predicate NeverLate(delay: nat) {
    delay == 0 || delay >= UINT32 - 1
  }

  lemma StartIsBacked(s: Setup, inp: Inputs, m: Manager, phase: Phase, n: nat, i: nat)
    requires Sound(s, m) && Timed(s, m) && Fits(s, inp) && n < |m.rt|
    requires i < |s.configs| && NeverLate(s.configs[i].delayMs)
    ensures Starts(m, Iteration(s, inp, m, phase, n), i) ==> RequirementsUp(s, m, i)
  {
    hide Iteration, CanStart, Sound, RequirementsUp, Valid;
    if Starts(m, Iteration(s, inp, m, phase, n), i) {
      StartsHow(s, inp, m, phase, n, i);
      if phase == Launches {
        CanStartIsBacked(s, m, i);
      } else {
        NeverEnds(m.ticks, m.rt[i].delayStart, s.configs[i].delayMs);
      }
    }
  }

  lemma NeverEnds(now: nat, start: nat, delay: nat)
    requires now % 2 == 0 && start % 2 == 0 && delay >= UINT32 - 1
    ensures (now - start) % UINT32 < delay
  {
  }

  /** The other way round: after a tick no service is still pending that has no wait path, whose `after`
      names have had their turn and whose `ready` names are past starting and marked ready. */
  lemma NothingIsHeldBack(s: Setup, inp: Inputs, m: Manager, i: nat)
    requires Sized(s, m) && Fits(s, inp) && i < |m.rt| && s.configs[i].waitPath == ""
    requires var r := Tick(s, inp, m);
             && (forall name :: name in s.configs[i].after ==> HadItsTurn(s, r, name))
             && (forall name :: name in s.configs[i].ready ==> IsReady(s, r, name))
    ensures Tick(s, inp, m).rt[i].state != Pending
  {
    hide Tick;
    var r := Tick(s, inp, m);
    TickReachesFixpoint(s, inp, m, i);
    var c := s.configs[i];
    assert ResolvableNode(s.configs, c);
    forall k | 0 <= k < |s.deps[i]|
      ensures s.deps[i][k].target < |r.rt| && Satisfied(s.deps[i][k].kind, r.rt[s.deps[i][k].target])
    {
      if k < |c.after| {
        assert c.after[k] in c.after && s.deps[i][k] == Dependency(FindByName(s.configs, c.after[k]), After);
      } else {
        var q := k - |c.after|;
        assert c.ready[q] in c.ready && s.deps[i][k] == Dependency(FindByName(s.configs, c.ready[q]), Requires);
      }
    }
  }

  ghost predicate IsReady(s: Setup, m: Manager, name: string) {
    var d := FindByName(s.configs, name);
    0 <= d < |m.rt| && m.rt[d].state !in {Pending, Waiting, Starting} && m.rt[d].ready
  }

  // ------------------------------------------------------------- the whole history

  lemma IterationGrows(s: Setup, inp: Inputs, m: Manager, phase: Phase, n: nat)
    requires Sized(s, m) && Fits(s, inp) && n < |m.rt|
    ensures var r := Iteration(s, inp, m, phase, n);
            m.history <= r.history && |r.history| <= |m.history| + 1
  {
    hide Valid, CanStart, RequiresFailed, ReadyDepended;
    OrderInRange(s, n);
  }

  lemma {:induction false} LoopGrows(s: Setup, inp: Inputs, m: Manager, phase: Phase, n: nat)
    requires Sized(s, m) && Fits(s, inp) && n <= |m.rt|
    ensures m.history <= Loop(s, inp, m, phase, n).history
  {
    hide Iteration, Valid;
    if n > 0 {
      LoopGrows(s, inp, m, phase, n - 1);
      IterationGrows(s, inp, Loop(s, inp, m, phase, n - 1), phase, n - 1);
    }
  }

  /** The iteration of a loop that recorded event `a`. */
  lemma {:induction false} LoopMoment(s: Setup, inp: Inputs, m: Manager, phase: Phase, n: nat, a: nat)
    returns (j: nat)
    requires Sized(s, m) && Fits(s, inp) && n <= |m.rt|
    requires |m.history| <= a < |Loop(s, inp, m, phase, n).history|
    ensures j < n && var h, x := Loop(s, inp, m, phase, n).history, Loop(s, inp, m, phase, j);
                     x.history == h[..a] && Iteration(s, inp, x, phase, j).history == h[..a + 1]
  {
    hide Iteration, Valid;
    var b := Loop(s, inp, m, phase, n - 1);
    IterationGrows(s, inp, b, phase, n - 1);
    if a < |b.history| {
      j := LoopMoment(s, inp, m, phase, n - 1, a);
    } else {
      j := n - 1;
    }
  }

  lemma {:induction false} EnteringGrows(s: Setup, inp: Inputs, m: Manager, phase: Phase)
    requires Sized(s, m) && Fits(s, inp)
    ensures m.history <= Entering(s, inp, m, phase).history
    decreases phase.Launches?, phase.Failures?, phase.Timeouts?, phase.Mounts?
  {
    hide Loop, Valid;
    if phase != Delays {
      var p := Previous(phase);
      EnteringGrows(s, inp, m, p);
      LoopGrows(s, inp, Entering(s, inp, m, p), p, |m.rt|);
    }
  }

  function Previous(phase: Phase): Phase {
    match phase
    case Delays => Delays
    case Mounts => Delays
    case Timeouts => Mounts
    case Failures => Timeouts
    case Launches => Failures
  }

  /** The moment of a tick, up to the end of one of its loops, that recorded event `a`. */
  lemma {:induction false} TickMoment(s: Setup, inp: Inputs, m: Manager, last: Phase, a: nat)
    returns (phase: Phase, n: nat)
    requires Sized(s, m) && Fits(s, inp)
    requires |m.history| <= a < |Moment(s, inp, m, last, |m.rt|).history|
    ensures n < |m.rt| && var h, x := Moment(s, inp, m, last, |m.rt|).history, Moment(s, inp, m, phase, n);
                          x.history == h[..a] && Iteration(s, inp, x, phase, n).history == h[..a + 1]
    decreases last.Launches?, last.Failures?, last.Timeouts?, last.Mounts?
  {
    hide Loop, Iteration, Valid;
    var e := Entering(s, inp, m, last);
    LoopGrows(s, inp, e, last, |m.rt|);
    if a < |e.history| {
      phase, n := TickMoment(s, inp, m, Previous(last), a);
    } else {
      phase := last;
      n := LoopMoment(s, inp, e, last, |m.rt|, a);
    }
  }

  /** Only ticks record starts. */
  lemma OthersStartNothing(s: Setup, m: Manager, op: Op, r: Manager)
    requires Sized(s, m) && Step(s, m, op, r) && !op.TickOp?
    ensures m.history <= r.history
    ensures forall a :: |m.history| <= a < |r.history| ==> !r.history[a].StartedAs?
  {
    hide Valid, Cascaded;
  }

  /** The moment of a run at which a recorded start happened. */
  lemma {:induction false} RunMoment(s: Setup, ops: seq<Op>, states: seq<Manager>, k: nat, a: nat)
    returns (j: nat, phase: Phase, n: nat)
    requires Run(s, ops, states) && k <= |ops| && a < |states[k].history| && states[k].history[a].StartedAs?
    ensures j < k && ops[j].TickOp? && Sized(s, states[j]) && Fits(s, ops[j].inp) && n < |states[j].rt|
    ensures var h, x := states[k].history, Moment(s, ops[j].inp, states[j], phase, n);
            x.history == h[..a] && Iteration(s, ops[j].inp, x, phase, n).history == h[..a + 1]
  {
    hide Moment, Iteration, Valid, Tick, Sized, Fits;
    var m, op := states[k - 1], ops[k - 1];
    assert Sized(s, m) && Step(s, m, op, states[k]);
    if op.TickOp? {
      var inp := op.inp;
      TickIsLastMoment(s, inp, m);
      MomentGrows(s, inp, m, Launches);
      if a >= |m.history| {
        j := k - 1;
        phase, n := TickMoment(s, inp, m, Launches, a);
        return;
      }
    } else {
      OthersStartNothing(s, m, op, states[k]);
    }
    j, phase, n := RunMoment(s, ops, states, k - 1, a);
  }

  lemma MomentGrows(s: Setup, inp: Inputs, m: Manager, phase: Phase)
    requires Sized(s, m) && Fits(s, inp)
    ensures m.history <= Moment(s, inp, m, phase, |m.rt|).history
  {
    hide Loop, Valid;
    EnteringGrows(s, inp, m, phase);
    LoopGrows(s, inp, Entering(s, inp, m, phase), phase, |m.rt|);
  }

  /** The last start before event `a` of the service called `name` was followed by its report. */
  ghost predicate ReportedBefore(s: Setup, h: seq<Event>, a: nat, name: string) {
    var d := FindByName(s.configs, name);
    0 <= d && a <= |h| && exists pid :: Since(h[..a], d, pid, ReportedBy(d, pid))
  }

  /** In every history, before each start of a service that is never late, everything it requires was
      started and has reported ready since. */
  lemma StartedAfterReports(s: Setup, ops: seq<Op>, states: seq<Manager>, k: nat, a: nat, i: nat, name: string)
    requires Run(s, ops, states) && k <= |ops| && a < |states[k].history|
    requires states[k].history[a].StartedAs? && states[k].history[a].idx == i
    requires i < |s.configs| && NeverLate(s.configs[i].delayMs) && name in s.configs[i].ready
    ensures ReportedBefore(s, states[k].history, a, name)
  {
    hide Step, Moment, Iteration, Since, Valid;
    var h := states[k].history;
    var j, phase, n := RunMoment(s, ops, states, k, a);
    var x := Moment(s, ops[j].inp, states[j], phase, n);
    assert h[..a + 1] == h[..a] + [StartedAs(i, h[a].pid)];
    assert Starts(x, Iteration(s, ops[j].inp, x, phase, n), i);
    StartedWithItsRequirements(s, ops, states, j, i);
    assert BackedAt(s, ops[j].inp, states[j], phase, n, i);
    assert IsUp(s, x, name);
  }

  // ------------------------------------------------------------- a delayed service

  /** Service `b` requires `a` and has a start delay. */
  function Pair(delay: nat): Setup {
    Setup([Config("a", [], [], "", 0, "", false), Config("b", [], ["a"], "", delay, "", false)],
          [[], [Dependency(0, Requires)]], [0, 1])
  }

  const Outcomes := Inputs([1, 2], [true, true])

  lemma PairIsValid(delay: nat)
    ensures Valid(Pair(delay))
    ensures FindByName(Pair(delay).configs, "a") == 0
  {
    var s := Pair(delay);
    assert s.configs[0].name == "a" && s.configs[1].name == "b";
    assert FindByName(s.configs, "a") == 0;
    assert Known(s.configs, "a");
    assert DependenciesOf(s.configs, s.configs[0]) == [];
    assert DependenciesOf(s.configs, s.configs[1]) == [Dependency(0, Requires)];
    assert s.deps == AllDependencies(s.configs);
    var g := GraphOf(s.deps);
    assert g[0] == [] && g[1] == [0];
    assert s.order[..1] == [0];
    assert DependsWithin(g, s.order[0], s.order[..0]) && DependsWithin(g, s.order[1], s.order[..1]);
    assert s.order[0] == 0 && s.order[1] == 1;
  }

  /** The delay of service `i` is over. */
  predicate Due(s: Setup, m: Manager, i: nat)
    requires i < |m.rt| == |s.configs|
  {
    m.rt[i].state.Waiting? && (m.ticks - m.rt[i].delayStart) % UINT32 >= s.configs[i].delayMs
  }

  /** Nothing to do for the loops of a tick before the launches. */
  predicate Calm(s: Setup, m: Manager) {
    && |m.rt| == |s.configs| == 2
    && forall i :: 0 <= i < 2 ==> !m.rt[i].state.Failed? && (m.rt[i].state.Running? ==> m.rt[i].ready) && !Due(s, m, i)
  }

  lemma {:induction false} CalmEntering(delay: nat, m: Manager, phase: Phase)
    requires Sized(Pair(delay), m) && Calm(Pair(delay), m.(ticks := (m.ticks + TICK_MS) % UINT32))
    ensures Entering(Pair(delay), Outcomes, m, phase) == m.(ticks := (m.ticks + TICK_MS) % UINT32)
    decreases phase.Launches?, phase.Failures?, phase.Timeouts?, phase.Mounts?
  {
    hide Whole, Valid, Calm, Pair;
    if phase != Delays {
      CalmEntering(delay, m, Previous(phase));
      CalmWhole(delay, m.(ticks := (m.ticks + TICK_MS) % UINT32), Previous(phase));
    }
  }

  lemma CalmWhole(delay: nat, m: Manager, phase: Phase)
    requires Sized(Pair(delay), m) && Calm(Pair(delay), m) && phase != Launches
    ensures Whole(Pair(delay), Outcomes, m, phase) == m
  {
    hide Iteration, Valid, Calm;
    var s := Pair(delay);
    CalmIteration(delay, m, phase, 0);
    CalmIteration(delay, m, phase, 1);
    assert Loop(s, Outcomes, m, phase, 0) == m;
    assert Loop(s, Outcomes, m, phase, 1) == m;
    assert Loop(s, Outcomes, m, phase, 2) == m;
  }

  lemma CalmIteration(delay: nat, m: Manager, phase: Phase, n: nat)
    requires Sized(Pair(delay), m) && Calm(Pair(delay), m) && phase != Launches && n < 2
    ensures Iteration(Pair(delay), Outcomes, m, phase, n) == m
  {
    hide Valid;
    PairIsValid(delay);
  }

  /** The launches of a calm tick. */
  lemma CalmTick(delay: nat, m: Manager)
    requires |m.rt| == 2 && Calm(Pair(delay), m.(ticks := (m.ticks + TICK_MS) % UINT32))
    ensures Sized(Pair(delay), m)
    ensures var s, m0 := Pair(delay), m.(ticks := (m.ticks + TICK_MS) % UINT32);
            Tick(s, Outcomes, m) == Launch(s, Launch(s, m0, 0, 1), 1, 2)
  {
    hide Valid, Calm, Launch;
    PairIsValid(delay);
    CalmEntering(delay, m, Launches);
    TickIsLastMoment(Pair(delay), Outcomes, m);
    var s, m0 := Pair(delay), m.(ticks := (m.ticks + TICK_MS) % UINT32);
    assert Loop(s, Outcomes, m0, Launches, 0) == m0;
    assert Loop(s, Outcomes, m0, Launches, 1) == Launch(s, m0, 0, 1);
    assert Loop(s, Outcomes, m0, Launches, 2) == Launch(s, Launch(s, m0, 0, 1), 1, 2);
  }

  const Up := Runtime(Running, 1, 0, 50, true, false, true, 0, false)

  const Reported := [StartedAs(0, 1), ReportedBy(0, 1)]

  /** `a` ran and has stopped again, while `b` waits for the end of its delay. */
  function StillWaiting(n: nat): Manager {
    Manager([Runtime(Stopped, -1, 0, 0, false, false, false, 0, false), Fresh.(state := Waiting, delayStart := 100)],
            (100 + TICK_MS * n) % UINT32, Reported)
  }

  /** The first tick starts `a`. */
  lemma FirstTick(delay: nat)
    ensures PairIsSized(delay, Boot(Pair(delay)))
    ensures Tick(Pair(delay), Outcomes, Boot(Pair(delay))) ==
            Manager([Runtime(Running, 1, 0, 50, false, false, false, 0, false), Fresh], 50, [StartedAs(0, 1)])
  {
    hide Valid;
    PairIsValid(delay);
    var s, m := Pair(delay), Boot(Pair(delay));
    assert m.rt == [Fresh, Fresh];
    CalmTick(delay, m);
    var m0 := m.(ticks := 50);
    assert CanStart(s, m0.rt, 0);
    var m1 := StartService(m0, 0, 1);
    assert m1.rt == [Runtime(Running, 1, 0, 50, false, false, false, 0, false), Fresh];
    assert !Satisfied(s.deps[1][0].kind, m1.rt[s.deps[1][0].target]);
    assert m1.history == [StartedAs(0, 1)];
  }

  ghost predicate PairIsSized(delay: nat, m: Manager) {
    Sized(Pair(delay), m)
  }

  /** The second tick finds `a` ready and lets the delay of `b` begin. */
  lemma SecondTick(delay: nat)
    requires delay > 0
    ensures PairIsSized(delay, Manager([Up, Fresh], 50, Reported))
    ensures Tick(Pair(delay), Outcomes, Manager([Up, Fresh], 50, Reported)) ==
            Manager([Up, Fresh.(state := Waiting, delayStart := 100)], 100, Reported)
  {
    hide Valid;
    PairIsValid(delay);
    var s, m := Pair(delay), Manager([Up, Fresh], 50, Reported);
    CalmTick(delay, m);
    var m0 := m.(ticks := 100);
    assert Satisfied(s.deps[1][0].kind, m0.rt[s.deps[1][0].target]);
    assert CanStart(s, m0.rt, 1);
  }

  /** A tick before the end of the delay only moves the clock. */
  lemma WaitingTick(delay: nat, n: nat)
    requires TICK_MS * (n + 1) % UINT32 < delay
    ensures PairIsSized(delay, StillWaiting(n))
    ensures Tick(Pair(delay), Outcomes, StillWaiting(n)) == StillWaiting(n + 1)
  {
    hide Valid;
    PairIsValid(delay);
    Clock(n);
    CalmTick(delay, StillWaiting(n));
  }

  lemma Clock(n: nat)
    ensures ((100 + TICK_MS * n) % UINT32 + TICK_MS) % UINT32 == (100 + TICK_MS * (n + 1)) % UINT32
    ensures ((100 + TICK_MS * (n + 1)) % UINT32 - 100) % UINT32 == TICK_MS * (n + 1) % UINT32
  {
    RestThenAdd(100 + TICK_MS * n, TICK_MS);
    RestThenAdd(100 + TICK_MS * (n + 1), -100);
  }

  lemma RestThenAdd(x: int, y: int)
    ensures (x % UINT32 + y) % UINT32 == (x + y) % UINT32
  {
    SameRest(x + y, x / UINT32);
  }

  lemma SameRest(x: int, k: int)
    ensures (x - k * UINT32) % UINT32 == x % UINT32
  {
  }

  /** At the end of the delay `b` is started although `a` is not up. */
  lemma LateTick(delay: nat, n: nat)
    requires 0 < delay <= TICK_MS * (n + 1) % UINT32
    ensures PairIsSized(delay, StillWaiting(n)) && !Backed(Pair(delay), Outcomes, StillWaiting(n), 1)
  {
    hide Valid, Since;
    PairIsValid(delay);
    Clock(n);
    var s, m := Pair(delay), StillWaiting(n);
    var m0 := m.(ticks := (m.ticks + TICK_MS) % UINT32);
    assert Iteration(s, Outcomes, m0, Delays, 0) == m0;
    assert Moment(s, Outcomes, m, Delays, 1) == m0 by {
      assert Loop(s, Outcomes, m0, Delays, 0) == m0;
    }
    assert Iteration(s, Outcomes, m0, Delays, 1).history == m0.history + [StartedAs(1, 2)];
    assert Starts(m0, Iteration(s, Outcomes, m0, Delays, 1), 1);
    assert "a" in s.configs[1].ready && !IsUp(s, m0, "a");
    assert !BackedAt(s, Outcomes, m, Delays, 1, 1);
  }

  lemma FirstSteps(delay: nat) returns (ops: seq<Op>, states: seq<Manager>)
    requires delay > 0
    ensures Run(Pair(delay), ops, states) && states[|ops|] == StillWaiting(0)
  {
    hide Valid, Tick;
    PairIsValid(delay);
    FirstTick(delay);
    SecondTick(delay);
    var s := Pair(delay);
    ops := [TickOp(Outcomes), Notify("a", 1), TickOp(Outcomes), Exit(1)];
    var s1 := Manager([Runtime(Running, 1, 0, 50, false, false, false, 0, false), Fresh], 50, [StartedAs(0, 1)]);
    var s2 := Manager([Up, Fresh], 50, Reported);
    var s3 := Manager([Up, Fresh.(state := Waiting, delayStart := 100)], 100, Reported);
    assert s2 == ReadyNotification(s, s1, "a", 1);
    assert FindPid(s3.rt, 1) == 0;
    assert StillWaiting(0) == HandleExit(s, s3, 1);
    states := [Boot(s), s1, s2, s3, StillWaiting(0)];
  }

  lemma OneMoreTick(s: Setup, ops: seq<Op>, states: seq<Manager>, inp: Inputs)
    requires Run(s, ops, states) && Sized(s, states[|ops|]) && Fits(s, inp)
    ensures Run(s, ops + [TickOp(inp)], states + [Tick(s, inp, states[|ops|])])
  {
    hide Valid, Tick;
    var ops', states' := ops + [TickOp(inp)], states + [Tick(s, inp, states[|ops|])];
    forall k | 0 <= k < |ops'| ensures Sized(s, states'[k]) && Step(s, states'[k], ops'[k], states'[k + 1]) {
      if k < |ops| {
        assert Step(s, states[k], ops[k], states[k + 1]);
      }
    }
  }

  lemma {:induction false} RunToWaiting(delay: nat, n: nat) returns (ops: seq<Op>, states: seq<Manager>)
    requires delay > 0 && forall j :: 0 <= j <= n ==> TICK_MS * j % UINT32 < delay
    ensures Run(Pair(delay), ops, states) && states[|ops|] == StillWaiting(n)
  {
    hide Run, Tick, Pair, StillWaiting, Valid;
    if n == 0 {
      ops, states := FirstSteps(delay);
    } else {
      ops, states := RunToWaiting(delay, n - 1);
      assert TICK_MS * (n - 1 + 1) % UINT32 < delay;
      WaitingTick(delay, n - 1);
      PairFits(delay);
      OneMoreTick(Pair(delay), ops, states, Outcomes);
      RunLength(Pair(delay), ops, states);
      ops, states := ops + [TickOp(Outcomes)], states + [StillWaiting(n)];
    }
  }

  lemma PairFits(delay: nat)
    ensures Fits(Pair(delay), Outcomes)
  {
  }

  lemma RunLength(s: Setup, ops: seq<Op>, states: seq<Manager>)
    requires Run(s, ops, states)
    ensures |states| == |ops| + 1
  {
  }

  /** After this many ticks the clock shows the largest even number. */
  const LONGEST := 1030792151

  lemma {:induction false} FirstDue(delay: nat, n: nat) returns (first: nat)
    requires delay <= TICK_MS * n % UINT32
    ensures delay <= TICK_MS * first % UINT32 && forall j :: 0 <= j < first ==> TICK_MS * j % UINT32 < delay
  {
    first := n;
    if j: nat :| j < n && delay <= TICK_MS * j % UINT32 {
      first := FirstDue(delay, j);
    }
  }

  /** For every delay that can end there is a run in which the service is started at its end although
      what it requires has stopped. */
  lemma LateStart(delay: nat) returns (ops: seq<Op>, states: seq<Manager>)
    requires !NeverLate(delay)
    ensures Run(Pair(delay), ops, states) && |ops| > 0 && ops[|ops| - 1] == TickOp(Outcomes)
    ensures PairIsSized(delay, states[|ops| - 1]) && Fits(Pair(delay), Outcomes)
    ensures !Backed(Pair(delay), Outcomes, states[|ops| - 1], 1)
  {
    hide Run, Tick, Backed, StillWaiting, Valid, Pair;
    assert TICK_MS * LONGEST % UINT32 == UINT32 - 2;
    var first := FirstDue(delay, LONGEST);
    assert first > 0;
    var n := first - 1;
    ops, states := RunToWaiting(delay, n);
    LateTick(delay, n);
    PairFits(delay);
    RunLength(Pair(delay), ops, states);
    OneMoreTick(Pair(delay), ops, states, Outcomes);
    ops, states := ops + [TickOp(Outcomes)], states + [Tick(Pair(delay), Outcomes, states[|ops|])];
  }

  // --------------------------------------------------------------- the exact condition

  ghost predicate TickBacked(s: Setup, ops: seq<Op>, states: seq<Manager>, k: nat, i: nat, delay: nat) {
    Run(s, ops, states) && k < |ops| && ops[k].TickOp? && i < |s.configs| && s.configs[i].delayMs == delay ==>
      Sized(s, states[k]) && Fits(s, ops[k].inp) && Backed(s, ops[k].inp, states[k], i)
  }

  /** In all runs of all setups, a service with this delay is started only when what it requires is up. */
  ghost predicate AlwaysBacked(delay: nat) {
    forall s: Setup, ops: seq<Op>, states: seq<Manager>, k: nat, i: nat :: TickBacked(s, ops, states, k, i, delay)
  }

  /** That is so iff there is no delay or it never ends. */
  lemma BackedIff(delay: nat)
    ensures AlwaysBacked(delay) <==> NeverLate(delay)
  {
    hide Step, Backed, Valid, NeverLate;
    if NeverLate(delay) {
      forall s: Setup, ops: seq<Op>, states: seq<Manager>, k: nat, i: nat
        ensures TickBacked(s, ops, states, k, i, delay)
      {
        if Run(s, ops, states) && k < |ops| && ops[k].TickOp? && i < |s.configs| && s.configs[i].delayMs == delay {
          TickFits(s, ops, states, k);
          StartedWithItsRequirements(s, ops, states, k, i);
        }
      }
    } else {
      var ops, states := LateStart(delay);
      assert Pair(delay).configs[1].delayMs == delay;
      assert !TickBacked(Pair(delay), ops, states, |ops| - 1, 1, delay);
    }
  }

  lemma TickFits(s: Setup, ops: seq<Op>, states: seq<Manager>, k: nat)
    requires Run(s, ops, states) && k < |ops| && ops[k].TickOp?
    ensures Fits(s, ops[k].inp)
  {
    hide Tick, Valid;
    assert Step(s, states[k], ops[k], states[k + 1]);
  }
}
