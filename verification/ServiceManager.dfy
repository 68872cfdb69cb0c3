/**
  Init's service manager: the per-tick state machine, readiness and the cascade restart.

  Process creation, mounting and the arrival of messages are inputs: a tick is given the pid (or
  negative error) each start would return and whether each mount would succeed.
  */
module ServiceManager {
  import opened Bytes
  import opened ServiceGraph
  import opened ServiceConfig
  import opened Wrappers

  datatype State = Pending | Waiting | Starting | Running | Stopped | Failed

  datatype Runtime = Runtime(
    state: State, pid: int, delayStart: nat, startTicks: nat, reportedReady: bool, mounted: bool, ready: bool,
    readyRetry: nat, manualStop: bool)

  const SVC_READY_TIMEOUT_MS := 5000
  const SVC_READY_MAX_RETRIES := 2
  const TICK_MS := 50

  /** What happened to the services, in order. */
  datatype Event = StartedAs(idx: nat, pid: int) | ReportedBy(idx: nat, pid: int) | MountedBy(idx: nat, pid: int)

  datatype Manager = Manager(rt: seq<Runtime>, ticks: nat, history: seq<Event>)

  /** The outcomes a tick meets: the pid of each start, and whether each mount goes through. */
  datatype Inputs = Inputs(spawn: seq<int>, mountOk: seq<bool>)

  ghost predicate Sized(s: Setup, m: Manager) {
    Valid(s) && |m.rt| == |s.configs| == |s.deps| == |s.order|
  }

  ghost predicate Fits(s: Setup, inp: Inputs) {
    |inp.spawn| == |inp.mountOk| == |s.configs|
  }

  // -------------------------------------------------------- one service at a time

  function StartService(m: Manager, i: nat, pid: int): (r: Manager)
    requires i < |m.rt|
    ensures |r.rt| == |m.rt|
  {
    var rt := m.rt[i];
    if pid < 0 then m.(rt := m.rt[i := rt.(state := Failed)])
    else m.(rt := m.rt[i := rt.(state := Running, pid := pid, startTicks := m.ticks, reportedReady := false,
                                mounted := false, ready := false, readyRetry := 0)],
            history := m.history + [StartedAs(i, pid)])
  }

  function TryMount(s: Setup, m: Manager, i: nat, ok: bool): (r: Manager)
    requires i < |m.rt| == |s.configs|
    ensures |r.rt| == |m.rt|
  {
    var rt := m.rt[i];
    if s.configs[i].mount == "" || !rt.state.Running? || !rt.reportedReady || rt.mounted then m
    else if !ok then m.(rt := m.rt[i := rt.(state := Failed)])
    else m.(rt := m.rt[i := rt.(mounted := true, ready := true)], history := m.history + [MountedBy(i, rt.pid)])
  }

  /** Another service lists this one under `ready`. */
  predicate ReadyDepended(configs: seq<Config>, i: nat)
    requires i < |configs|
  {
    exists j :: 0 <= j < |configs| && j != i && configs[i].name in configs[j].ready
  }

  function CheckTimeout(s: Setup, m: Manager, i: nat): (r: Manager)
    requires i < |m.rt| == |s.configs|
    ensures |r.rt| == |m.rt|
  {
    var rt := m.rt[i];
    if !rt.state.Running? || rt.ready || (m.ticks - rt.startTicks) % UINT32 < SVC_READY_TIMEOUT_MS then m
    else if !ReadyDepended(s.configs, i) then m.(rt := m.rt[i := rt.(ready := true)])
    else if rt.readyRetry < SVC_READY_MAX_RETRIES then
      m.(rt := m.rt[i := rt.(readyRetry := rt.readyRetry + 1, startTicks := m.ticks)])
    else m.(rt := m.rt[i := rt.(state := Failed)])
  }

  predicate NameFailed(s: Setup, rt: seq<Runtime>, name: string)
    requires |rt| == |s.configs|
  {
    Known(s.configs, name) && rt[FindByName(s.configs, name)].state.Failed?
  }

  predicate RequiresFailed(s: Setup, rt: seq<Runtime>, i: nat)
    requires i < |rt| == |s.configs|
  {
    exists n :: n in s.configs[i].ready && NameFailed(s, rt, n)
  }

  function PropagateFailed(s: Setup, m: Manager, i: nat): (r: Manager)
    requires i < |m.rt| == |s.configs|
    ensures |r.rt| == |m.rt|
  {
    if m.rt[i].state.Pending? && RequiresFailed(s, m.rt, i) then m.(rt := m.rt[i := m.rt[i].(state := Failed)])
    else m
  }

  function ProcessDelay(s: Setup, m: Manager, i: nat, pid: int): (r: Manager)
    requires i < |m.rt| == |s.configs|
    ensures |r.rt| == |m.rt|
  {
    var rt := m.rt[i];
    if rt.state.Waiting? && (m.ticks - rt.delayStart) % UINT32 >= s.configs[i].delayMs then StartService(m, i, pid)
    else m
  }

  predicate Satisfied(kind: DepType, target: Runtime) {
    match kind
    case Requires => !(target.state.Pending? || target.state.Waiting? || target.state.Starting?) && target.ready
    case Wants => target.state.Running? ==> target.ready
    case After => !(target.state.Pending? || target.state.Waiting?)
  }

  ghost predicate CanStart(s: Setup, rt: seq<Runtime>, i: nat)
    requires i < |s.deps| == |s.configs| == |rt|
  {
    && (forall k :: 0 <= k < |s.deps[i]| ==>
          s.deps[i][k].target < |rt| && Satisfied(s.deps[i][k].kind, rt[s.deps[i][k].target]))
    && s.configs[i].waitPath == ""
  }

  ghost function Launch(s: Setup, m: Manager, i: nat, pid: int): (r: Manager)
    requires i < |m.rt| == |s.configs| == |s.deps|
    ensures |r.rt| == |m.rt|
  {
    var rt := m.rt[i];
    if !rt.state.Pending? || !CanStart(s, m.rt, i) then m
    else if s.configs[i].delayMs > 0 then m.(rt := m.rt[i := rt.(state := Waiting, delayStart := m.ticks)])
    else StartService(m, i, pid)
  }

  // ------------------------------------------------------------------ one tick

  datatype Phase = Delays | Mounts | Timeouts | Failures | Launches

  ghost function Iteration(s: Setup, inp: Inputs, m: Manager, phase: Phase, n: nat): (r: Manager)
    requires Sized(s, m) && Fits(s, inp) && n < |m.rt|
    ensures |r.rt| == |m.rt|
  {
    match phase
    case Delays => ProcessDelay(s, m, n, inp.spawn[n])
    case Mounts => TryMount(s, m, n, inp.mountOk[n])
    case Timeouts => CheckTimeout(s, m, n)
    case Failures => PropagateFailed(s, m, n)
    case Launches =>
      assert DependsWithin(GraphOf(s.deps), s.order[n], s.order[..n]);
      Launch(s, m, s.order[n], inp.spawn[s.order[n]])
  }

  /** The first `n` iterations of one of the tick's loops. */
  ghost function Loop(s: Setup, inp: Inputs, m: Manager, phase: Phase, n: nat): (r: Manager)
    requires Sized(s, m) && Fits(s, inp) && n <= |m.rt|
    ensures |r.rt| == |m.rt|
  {
    if n == 0 then m else Iteration(s, inp, Loop(s, inp, m, phase, n - 1), phase, n - 1)
  }

  ghost function Whole(s: Setup, inp: Inputs, m: Manager, phase: Phase): (r: Manager)
    requires Sized(s, m) && Fits(s, inp)
    ensures |r.rt| == |m.rt|
  {
    Loop(s, inp, m, phase, |m.rt|)
  }

  ghost function Tick(s: Setup, inp: Inputs, m: Manager): (r: Manager)
    requires Sized(s, m) && Fits(s, inp)
    ensures |r.rt| == |m.rt|
  {
    var m0 := m.(ticks := (m.ticks + TICK_MS) % UINT32);
    var m1 := Whole(s, inp, m0, Delays);
    var m2 := Whole(s, inp, m1, Mounts);
    var m3 := Whole(s, inp, m2, Timeouts);
    var m4 := Whole(s, inp, m3, Failures);
    Whole(s, inp, m4, Launches)
  }

  // ----------------------------------------------------------- one pass is enough

  /** Starting a service only matters to services later in the order. */
  lemma LaunchIsLocal(s: Setup, inp: Inputs, m: Manager, n: nat, k: nat)
    requires Sized(s, m) && Fits(s, inp) && k < n < |m.rt|
    ensures s.order[k] < |m.rt| && s.order[n] < |m.rt|
    ensures var r := Iteration(s, inp, m, Launches, n);
            r.rt[s.order[k]] == m.rt[s.order[k]] &&
            (CanStart(s, r.rt, s.order[k]) <==> CanStart(s, m.rt, s.order[k]))
  {
    var g, i, j := GraphOf(s.deps), s.order[k], s.order[n];
    assert DependsWithin(g, i, s.order[..k]) && DependsWithin(g, j, s.order[..n]);
    var r := Iteration(s, inp, m, Launches, n);
    assert forall x :: 0 <= x < |m.rt| && x != j ==> r.rt[x] == m.rt[x];
    forall q | 0 <= q < |s.deps[i]| ensures s.deps[i][q].target != j {
      assert g[i][q] == s.deps[i][q].target;
      assert g[i][q] in g[i];
    }
  }

  /** The service at place `k` of the order is not one that could start and is still pending. */
  ghost predicate SettledAt(s: Setup, rt: seq<Runtime>, k: nat) {
    k < |s.order| && s.order[k] < |rt| == |s.deps| == |s.configs| &&
    (rt[s.order[k]].state.Pending? ==> !CanStart(s, rt, s.order[k]))
  }

  lemma LaunchSettles(s: Setup, inp: Inputs, m: Manager, n: nat)
    requires Sized(s, m) && Fits(s, inp) && n < |m.rt|
    ensures SettledAt(s, Iteration(s, inp, m, Launches, n).rt, n)
  {
    hide CanStart;
    assert DependsWithin(GraphOf(s.deps), s.order[n], s.order[..n]);
  }

  lemma LaunchKeepsSettled(s: Setup, inp: Inputs, m: Manager, n: nat, k: nat)
    requires Sized(s, m) && Fits(s, inp) && k < n < |m.rt| && SettledAt(s, m.rt, k)
    ensures SettledAt(s, Iteration(s, inp, m, Launches, n).rt, k)
  {
    hide CanStart, Iteration;
    LaunchIsLocal(s, inp, m, n, k);
  }

  lemma {:induction false} LaunchesSettle(s: Setup, inp: Inputs, m: Manager, n: nat)
    requires Sized(s, m) && Fits(s, inp) && n <= |m.rt|
    ensures forall k :: 0 <= k < n ==> SettledAt(s, Loop(s, inp, m, Launches, n).rt, k)
  {
    hide SettledAt, Iteration;
    if n > 0 {
      LaunchesSettle(s, inp, m, n - 1);
      var b := Loop(s, inp, m, Launches, n - 1);
      LaunchSettles(s, inp, b, n - 1);
      forall k | 0 <= k < n - 1 ensures SettledAt(s, Loop(s, inp, m, Launches, n).rt, k) {
        LaunchKeepsSettled(s, inp, b, n - 1, k);
      }
    }
  }

  /** After a tick nothing that could start is still pending. */
  lemma TickReachesFixpoint(s: Setup, inp: Inputs, m: Manager, i: nat)
    requires Sized(s, m) && Fits(s, inp) && i < |m.rt|
    ensures var r := Tick(s, inp, m); r.rt[i].state.Pending? ==> !CanStart(s, r.rt, i)
  {
    var m0 := m.(ticks := (m.ticks + TICK_MS) % UINT32);
    var m4 := Whole(s, inp, Whole(s, inp, Whole(s, inp, Whole(s, inp, m0, Delays), Mounts), Timeouts), Failures);
    LaunchesSettle(s, inp, m4, |m.rt|);
    assert i in s.order;
    var k :| 0 <= k < |s.order| && s.order[k] == i;
    assert SettledAt(s, Tick(s, inp, m).rt, k);
  }

  // ------------------------------------------------------------ cascade restart

  predicate IsActive(rt: Runtime) {
    rt.state.Running? || rt.state.Starting?
  }

  ghost function ActiveSet(rt: seq<Runtime>): set<nat> {
    set i: nat | i < |rt| && IsActive(rt[i])
  }

  /** A chain of dependants: each service depends on the one before, and all after the first are active. */
  ghost predicate Chain(g: Graph, active: set<nat>, p: seq<nat>) {
    && 1 < |p|
    && (forall k :: 1 <= k < |p| ==> p[k] in active && p[k] < |g| && p[k - 1] in g[p[k]])
  }

  ghost predicate Affected(g: Graph, active: set<nat>, target: nat, i: nat) {
    exists p :: Chain(g, active, p) && p[0] == target && p[|p| - 1] == i
  }

  function Restarted(rt: Runtime): Runtime {
    rt.(state := Pending, manualStop := false, ready := false)
  }

  /** What a cascade does: exactly the affected services are reset. */
  ghost predicate Cascaded(g: Graph, before: seq<Runtime>, after: seq<Runtime>, target: nat) {
    && |after| == |before| == |g|
    && forall i: nat :: i < |g| ==>
         after[i] == if Affected(g, ActiveSet(before), target, i) then Restarted(before[i]) else before[i]
  }

  lemma ChainExtends(g: Graph, outer: set<nat>, inner: set<nat>, target: nat, i: nat, x: nat)
    requires inner <= outer && i in outer && i < |g| && target in g[i]
    ensures Affected(g, outer, target, i)
    ensures Affected(g, inner, i, x) ==> Affected(g, outer, target, x)
  {
    assert Chain(g, outer, [target, i]);
    if Affected(g, inner, i, x) {
      var p :| Chain(g, inner, p) && p[0] == i && p[|p| - 1] == x;
      var q := [target] + p;
      assert Chain(g, outer, q);
    }
  }

  /** No service still active depends on the target or on a service that was reset. */
  ghost predicate Settled(g: Graph, active: set<nat>, left: set<nat>, target: nat) {
    && (forall i :: i in left && i < |g| ==> target !in g[i])
    && (forall i, x :: i in left && i < |g| && x in g[i] && x in active ==> x in left)
  }

  lemma {:induction false} ChainsAreReset(g: Graph, active: set<nat>, left: set<nat>, target: nat, p: seq<nat>)
    requires Chain(g, active, p) && p[0] == target && Settled(g, active, left, target)
    ensures p[|p| - 1] !in left
    decreases |p|
  {
    var k := |p| - 1;
    assert p[k] < |g| && p[k - 1] in g[p[k]];
    if |p| > 2 {
      ChainsAreReset(g, active, left, target, p[..k]);
      assert p[k - 1] in active;
    }
  }

  /** The effect of a cascade that has looked at the dependants below `n` of its target. */
  ghost predicate CascadedUpTo(g: Graph, before: seq<Runtime>, after: seq<Runtime>, target: nat, n: nat) {
    var active, left := ActiveSet(before), ActiveSet(after);
    && |after| == |before| == |g|
    && (forall i: nat :: i < |g| ==>
          (after[i] == before[i]
              || (i in active && Affected(g, active, target, i) && after[i] == Restarted(before[i]))))
    && (forall i :: i in left && i < n && i < |g| ==> target !in g[i])
    && (forall i, x :: i in left && i < |g| && x in g[i] && x in active ==> x in left)
  }

  lemma CascadeIsExact(g: Graph, before: seq<Runtime>, after: seq<Runtime>, target: nat)
    requires CascadedUpTo(g, before, after, target, |g|)
    ensures Cascaded(g, before, after, target)
  {
    var active, left := ActiveSet(before), ActiveSet(after);
    forall i: nat | i < |g| && Affected(g, active, target, i) ensures after[i] == Restarted(before[i]) {
      var p :| Chain(g, active, p) && p[0] == target && p[|p| - 1] == i;
      ChainsAreReset(g, active, left, target, p);
      assert i in active;
    }
  }

  /** Resetting dependant `n` and cascading from it moves the outer cascade one dependant on. */
  lemma CascadeComposes(g: Graph, before: seq<Runtime>, cur: seq<Runtime>, after: seq<Runtime>, target: nat, n: nat)
    requires CascadedUpTo(g, before, cur, target, n) && n < |g| && target in g[n] && IsActive(cur[n])
    requires CascadedUpTo(g, cur[n := Restarted(cur[n])], after, n, |g|)
    ensures CascadedUpTo(g, before, after, target, n + 1)
  {
    var mid := cur[n := Restarted(cur[n])];
    var a0, a1, a2, a3 := ActiveSet(before), ActiveSet(cur), ActiveSet(mid), ActiveSet(after);
    assert a2 == a1 - {n} && a1 <= a0 && a3 <= a2;
    hide Affected, Chain;
    forall i: nat | i < |g|
      ensures after[i] == before[i] || (i in a0 && Affected(g, a0, target, i) && after[i] == Restarted(before[i]))
    {
      ChainExtends(g, a0, a2, target, n, i);
    }
  }

  // -------------------------------------------------------------- every other event

  datatype Op =
    | TickOp(inp: Inputs)
    | Notify(name: string, pid: int)
    | Exit(pid: int)
    | StopCmd(name: string)
    | StartCmd(name: string)
    | RestartCmd(name: string)

  function ReadyNotification(s: Setup, m: Manager, name: string, pid: int): (r: Manager)
    requires |m.rt| == |s.configs|
    ensures |r.rt| == |m.rt|
  {
    var i := FindByName(s.configs, name);
    if i < 0 then m
    else
      var m' := m.(history := m.history + [ReportedBy(i, pid)]);
      var rt := m.rt[i];
      if !rt.state.Running? || rt.pid != pid then m'
      else m'.(rt := m.rt[i := rt.(reportedReady := true, ready := rt.ready || s.configs[i].mount == "")])
  }

  function FindPid(rt: seq<Runtime>, pid: int, from: nat := 0): (idx: int)
    requires from <= |rt|
    ensures -1 <= idx < |rt|
    ensures 0 <= idx ==> rt[idx].pid == pid && forall j :: from <= j < idx ==> rt[j].pid != pid
    ensures idx == -1 ==> forall j :: from <= j < |rt| ==> rt[j].pid != pid
    decreases |rt| - from
  {
    if from == |rt| then -1 else if rt[from].pid == pid then from else FindPid(rt, pid, from + 1)
  }

  function HandleExit(s: Setup, m: Manager, pid: int): (r: Manager)
    requires |m.rt| == |s.configs|
    ensures |r.rt| == |m.rt|
  {
    var i := FindPid(m.rt, pid);
    if i < 0 then m
    else
      var rt := m.rt[i];
      m.(rt := m.rt[i := rt.(state := if s.configs[i].respawn && !rt.manualStop then Pending else Stopped, pid := -1,
                             startTicks := 0, reportedReady := false, mounted := false, ready := false,
                             readyRetry := 0)])
  }

  function HandleStop(s: Setup, m: Manager, name: string): (r: Manager)
    requires |m.rt| == |s.configs|
    ensures |r.rt| == |m.rt|
  {
    var i := FindByName(s.configs, name);
    if i < 0 || m.rt[i].state.Stopped? || m.rt[i].state.Failed? then m
    else m.(rt := m.rt[i := m.rt[i].(manualStop := true)])
  }

  function HandleStart(s: Setup, m: Manager, name: string): (r: Manager)
    requires |m.rt| == |s.configs|
    ensures |r.rt| == |m.rt|
  {
    var i := FindByName(s.configs, name);
    if i < 0 || m.rt[i].state.Running? then m
    else m.(rt := m.rt[i := m.rt[i].(state := Pending, manualStop := false)])
  }

  ghost predicate Restarts(s: Setup, m: Manager, name: string, r: Manager)
    requires Sized(s, m)
  {
    var i := FindByName(s.configs, name);
    if i < 0 then r == m
    else
      && r == m.(rt := r.rt)
      && Cascaded(GraphOf(s.deps), m.rt[i := Restarted(m.rt[i])], r.rt, i)
  }

  ghost predicate Step(s: Setup, m: Manager, op: Op, r: Manager)
    requires Sized(s, m)
  {
    match op
    case TickOp(inp) => Fits(s, inp) && r == Tick(s, inp, m)
    case Notify(name, pid) => r == ReadyNotification(s, m, name, pid)
    case Exit(pid) => r == HandleExit(s, m, pid)
    case StopCmd(name) => r == HandleStop(s, m, name)
    case StartCmd(name) => r == HandleStart(s, m, name)
    case RestartCmd(name) => Restarts(s, m, name, r)
  }

  const Fresh := Runtime(Pending, 0, 0, 0, false, false, false, 0, false)

  function Boot(s: Setup): Manager {
    Manager(seq(|s.configs|, _ => Fresh), 0, [])
  }

  /** A run of the manager from boot: `states[k + 1]` comes from `states[k]` by `ops[k]`. */
  ghost predicate Run(s: Setup, ops: seq<Op>, states: seq<Manager>) {
    && Valid(s) && |states| == |ops| + 1 && states[0] == Boot(s)
    && forall k :: 0 <= k < |ops| ==> Sized(s, states[k]) && Step(s, states[k], ops[k], states[k + 1])
  }

  // ----------------------------------------------------------------- readiness

  /** The last start of service `i` had pid `pid`, at position `a` of the history. */
  ghost predicate LastStart(h: seq<Event>, i: nat, pid: int, a: nat) {
    && a < |h| && h[a] == StartedAs(i, pid)
    && forall k :: a < k < |h| ==> !(h[k].StartedAs? && h[k].idx == i)
  }

  ghost predicate StartIs(h: seq<Event>, i: nat, pid: int) {
    exists a :: LastStart(h, i, pid, a)
  }

  /** Event `e` happened after the last start of service `i`, which had pid `pid`. */
  ghost predicate Since(h: seq<Event>, i: nat, pid: int, e: Event) {
    exists a: nat, b: nat :: LastStart(h, i, pid, a) && a < b < |h| && h[b] == e
  }

  ghost predicate ServiceSound(s: Setup, m: Manager, i: nat)
    requires i < |m.rt| == |s.configs|
  {
    var rt := m.rt[i];
    && (rt.state.Running? ==> StartIs(m.history, i, rt.pid))
    && (rt.state.Running? && rt.reportedReady ==> Since(m.history, i, rt.pid, ReportedBy(i, rt.pid)))
    && (rt.state.Running? && rt.mounted ==> Since(m.history, i, rt.pid, MountedBy(i, rt.pid)))
    && (rt.ready && ReadyDepended(s.configs, i) ==>
          rt.state.Running? && rt.reportedReady && (s.configs[i].mount != "" ==> rt.mounted))
  }

  ghost predicate Sound(s: Setup, m: Manager) {
    Sized(s, m) && forall i :: 0 <= i < |m.rt| ==> ServiceSound(s, m, i)
  }

  lemma HistoryGrows(h: seq<Event>, e: Event, i: nat, pid: int)
    ensures !(e.StartedAs? && e.idx == i) && StartIs(h, i, pid) ==> StartIs(h + [e], i, pid)
    ensures !(e.StartedAs? && e.idx == i) && StartIs(h, i, pid) ==> Since(h + [e], i, pid, e)
    ensures forall f :: !(e.StartedAs? && e.idx == i) && Since(h, i, pid, f) ==> Since(h + [e], i, pid, f)
    ensures e == StartedAs(i, pid) ==> StartIs(h + [e], i, pid)
  {
    var h' := h + [e];
    assert e == StartedAs(i, pid) ==> LastStart(h', i, pid, |h|);
    if !(e.StartedAs? && e.idx == i) {
      assert forall a :: LastStart(h, i, pid, a) ==> LastStart(h', i, pid, a);
      if StartIs(h, i, pid) {
        var a :| LastStart(h, i, pid, a);
        assert h'[|h|] == e;
      }
      forall f | Since(h, i, pid, f) ensures Since(h', i, pid, f) {
        var a: nat, b: nat :| LastStart(h, i, pid, a) && a < b < |h| && h[b] == f;
        assert LastStart(h', i, pid, a) && h'[b] == f;
      }
    }
  }

  /** Changing one service, and recording at most one event about it, leaves the others sound. */
  lemma OthersStaySound(s: Setup, m: Manager, r: Manager, i: nat)
    requires Sound(s, m) && i < |m.rt| && |r.rt| == |m.rt| && ServiceSound(s, r, i)
    requires forall j :: 0 <= j < |m.rt| && j != i ==> r.rt[j] == m.rt[j]
    requires r.history == m.history || exists e: Event :: e.idx == i && r.history == m.history + [e]
    ensures Sound(s, r)
  {
    forall j | 0 <= j < |m.rt| ensures ServiceSound(s, r, j) {
      if j != i && r.history != m.history {
        var e: Event :| e.idx == i && r.history == m.history + [e];
        assert ServiceSound(s, m, j);
        HistoryGrows(m.history, e, j, m.rt[j].pid);
      } else if j != i {
        assert ServiceSound(s, m, j);
      }
    }
  }

  lemma StartIsSound(s: Setup, m: Manager, i: nat, pid: int)
    requires Sound(s, m) && i < |m.rt| && !m.rt[i].state.Running?
    ensures Sound(s, StartService(m, i, pid))
  {
    var r := StartService(m, i, pid);
    assert ServiceSound(s, m, i);
    HistoryGrows(m.history, StartedAs(i, pid), i, pid);
    OthersStaySound(s, m, r, i);
  }

  lemma MountIsSound(s: Setup, m: Manager, i: nat, ok: bool)
    requires Sound(s, m) && i < |m.rt|
    ensures Sound(s, TryMount(s, m, i, ok))
  {
    var r := TryMount(s, m, i, ok);
    assert ServiceSound(s, m, i);
    HistoryGrows(m.history, MountedBy(i, m.rt[i].pid), i, m.rt[i].pid);
    OthersStaySound(s, m, r, i);
  }

  lemma NotificationIsSound(s: Setup, m: Manager, name: string, pid: int)
    requires Sound(s, m)
    ensures Sound(s, ReadyNotification(s, m, name, pid))
  {
    var i := FindByName(s.configs, name);
    if i >= 0 {
      var r := ReadyNotification(s, m, name, pid);
      assert ServiceSound(s, m, i);
      HistoryGrows(m.history, ReportedBy(i, pid), i, m.rt[i].pid);
      OthersStaySound(s, m, r, i);
    }
  }

  /** Changes without an event: the service stops running and is not ready, keeps what soundness
      speaks about, or becomes ready although nobody depends on it. */
  lemma QuietIsSound(s: Setup, m: Manager, r: Manager, i: nat)
    requires Sound(s, m) && i < |m.rt| == |r.rt| && r == m.(rt := m.rt[i := r.rt[i]])
    requires var rt, rt' := m.rt[i], r.rt[i];
             || (!rt'.state.Running? && (rt'.ready ==> rt.ready && !rt.state.Running?))
             || (rt' == rt.(readyRetry := rt'.readyRetry, startTicks := rt'.startTicks, manualStop := rt'.manualStop))
             || (rt' == rt.(ready := true) && !ReadyDepended(s.configs, i))
    ensures Sound(s, r)
  {
    assert ServiceSound(s, m, i);
    OthersStaySound(s, m, r, i);
  }

  lemma IterationIsSound(s: Setup, inp: Inputs, m: Manager, phase: Phase, n: nat)
    requires Sound(s, m) && Fits(s, inp) && n < |m.rt|
    ensures Sound(s, Iteration(s, inp, m, phase, n))
  {
    hide ServiceSound, Valid, CanStart;
    match phase
    case Delays =>
      if m.rt[n].state.Waiting? { StartIsSound(s, m, n, inp.spawn[n]); }
    case Mounts => MountIsSound(s, m, n, inp.mountOk[n]);
    case Timeouts =>
      if !m.rt[n].ready { QuietIsSound(s, m, CheckTimeout(s, m, n), n); }
    case Failures =>
      QuietIsSound(s, m, PropagateFailed(s, m, n), n);
    case Launches =>
      OrderInRange(s, n);
      var i := s.order[n];
      if m.rt[i].state.Pending? {
        StartIsSound(s, m, i, inp.spawn[i]);
        QuietIsSound(s, m, m.(rt := m.rt[i := m.rt[i].(state := Waiting, delayStart := m.ticks)]), i);
      }
  }

  lemma OrderInRange(s: Setup, n: nat)
    requires Valid(s) && n < |s.configs|
    ensures s.order[n] < |s.order| == |s.configs| == |s.deps|
  {
    assert DependsWithin(GraphOf(s.deps), s.order[n], s.order[..n]);
  }

  lemma {:induction false} LoopIsSound(s: Setup, inp: Inputs, m: Manager, phase: Phase, n: nat)
    requires Sound(s, m) && Fits(s, inp) && n <= |m.rt|
    ensures Sound(s, Loop(s, inp, m, phase, n))
  {
    hide Iteration, ServiceSound, Valid;
    if n > 0 {
      LoopIsSound(s, inp, m, phase, n - 1);
      IterationIsSound(s, inp, Loop(s, inp, m, phase, n - 1), phase, n - 1);
    }
  }

  lemma TickIsSound(s: Setup, inp: Inputs, m: Manager)
    requires Sound(s, m) && Fits(s, inp)
    ensures Sound(s, Tick(s, inp, m))
  {
    hide Loop, Valid;
    var m0 := m.(ticks := (m.ticks + TICK_MS) % UINT32);
    assert forall i :: 0 <= i < |m.rt| && ServiceSound(s, m, i) ==> ServiceSound(s, m0, i);
    LoopIsSound(s, inp, m0, Delays, |m.rt|);
    var m1 := Whole(s, inp, m0, Delays);
    LoopIsSound(s, inp, m1, Mounts, |m.rt|);
    var m2 := Whole(s, inp, m1, Mounts);
    LoopIsSound(s, inp, m2, Timeouts, |m.rt|);
    var m3 := Whole(s, inp, m2, Timeouts);
    LoopIsSound(s, inp, m3, Failures, |m.rt|);
    LoopIsSound(s, inp, Whole(s, inp, m3, Failures), Launches, |m.rt|);
  }

  lemma RestartIsSound(s: Setup, m: Manager, name: string, r: Manager)
    requires Sound(s, m) && Restarts(s, m, name, r)
    ensures Sound(s, r)
  {
    hide Affected, Valid;
    var i := FindByName(s.configs, name);
    if i >= 0 {
      forall j | 0 <= j < |m.rt| ensures ServiceSound(s, r, j) {
        assert ServiceSound(s, m, j);
      }
    }
  }

  lemma StepIsSound(s: Setup, m: Manager, op: Op, r: Manager)
    requires Sound(s, m) && Step(s, m, op, r)
    ensures Sound(s, r)
  {
    hide ServiceSound, Valid, Tick, Restarts;
    match op
    case TickOp(inp) => TickIsSound(s, inp, m);
    case Notify(name, pid) => NotificationIsSound(s, m, name, pid);
    case Exit(pid) =>
      var i := FindPid(m.rt, pid);
      if i >= 0 { QuietIsSound(s, m, r, i); }
    case StopCmd(name) =>
      var i := FindByName(s.configs, name);
      if i >= 0 { QuietIsSound(s, m, r, i); }
    case StartCmd(name) =>
      var i := FindByName(s.configs, name);
      if i >= 0 { QuietIsSound(s, m, r, i); }
    case RestartCmd(name) => RestartIsSound(s, m, name, r);
  }

  lemma {:induction false} RunIsSound(s: Setup, ops: seq<Op>, states: seq<Manager>, k: nat)
    requires Run(s, ops, states) && k <= |ops|
    ensures Sound(s, states[k])
  {
    hide Step;
    if k > 0 {
      RunIsSound(s, ops, states, k - 1);
      StepIsSound(s, states[k - 1], ops[k - 1], states[k]);
    }
  }

  /** In every state of every run, a service others wait for is marked ready only while it runs, and
      its current process has reported ready (and been mounted, if it has a mount) since its start. */
  lemma ReadyMeansReady(s: Setup, ops: seq<Op>, states: seq<Manager>, k: nat, i: nat)
    requires Run(s, ops, states) && k <= |ops| && i < |s.configs|
    requires |states[k].rt| == |s.configs| && states[k].rt[i].ready && ReadyDepended(s.configs, i)
    ensures var m := states[k];
            var rt := m.rt[i];
            && rt.state.Running?
            && Since(m.history, i, rt.pid, ReportedBy(i, rt.pid))
            && (s.configs[i].mount != "" ==> Since(m.history, i, rt.pid, MountedBy(i, rt.pid)))
  {
    RunIsSound(s, ops, states, k);
    assert ServiceSound(s, states[k], i);
  }

  // --------------------------------------------------------------- the manager object

  class SvcManager {
    const setup: Setup
    var runtime: seq<Runtime>
    var ticks: nat
    var signals: seq<(nat, int)>  // SIGTERMs sent: service and pid
    ghost var history: seq<Event>

    ghost function Model(): Manager
      reads this
    {
      Manager(runtime, ticks, history)
    }

    constructor (s: Setup)
      requires Valid(s)
      ensures setup == s && Model() == Boot(s) && signals == []
    {
      setup := s;
      runtime, ticks, signals, history := seq(|s.configs|, _ => Fresh), 0, [], [];
    }

    method CanStartAdvanced(idx: nat) returns (b: bool)
      requires Sized(setup, Model()) && idx < |runtime|
      ensures b <==> CanStart(setup, runtime, idx)
    {
      ResolvedIsWellFormed(setup.configs);
      var deps := setup.deps[idx];
      for i := 0 to |deps|
        invariant forall k :: 0 <= k < i ==>
                    deps[k].target < |runtime| && Satisfied(deps[k].kind, runtime[deps[k].target])
      {
        assert GraphOf(setup.deps)[idx][i] == deps[i].target;
        var target := runtime[deps[i].target];
        match deps[i].kind
        case Requires =>
          if target.state.Pending? || target.state.Waiting? || target.state.Starting? || !target.ready {
            return false;
          }
        case Wants =>
          if target.state.Running? && !target.ready {
            return false;
          }
        case After =>
          if target.state.Pending? || target.state.Waiting? {
            return false;
          }
      }
      return setup.configs[idx].waitPath == "";
    }

    method StartServiceAt(idx: nat, pid: int)
      requires idx < |runtime|
      modifies this`runtime, this`history
      ensures Model() == StartService(old(Model()), idx, pid)
    {
      runtime := runtime[idx := runtime[idx].(state := Starting)];
      if pid < 0 {
        runtime := runtime[idx := runtime[idx].(state := Failed)];
        return;
      }
      runtime := runtime[idx := runtime[idx].(state := Running, pid := pid, startTicks := ticks,
                                              reportedReady := false, mounted := false, ready := false,
                                              readyRetry := 0)];
      history := history + [StartedAs(idx, pid)];
    }

    method ProcessDelays(inp: Inputs)
      requires Sized(setup, Model()) && Fits(setup, inp)
      modifies this`runtime, this`history
      ensures Model() == Whole(setup, inp, old(Model()), Delays)
    {
      hide Valid;
      for i := 0 to |setup.configs|
        invariant Model() == Loop(setup, inp, old(Model()), Delays, i)
      {
        if runtime[i].state.Waiting? {
          var elapsed := (ticks - runtime[i].delayStart) % UINT32;
          if elapsed >= setup.configs[i].delayMs {
            StartServiceAt(i, inp.spawn[i]);
          }
        }
      }
    }

    method TryMountServices(inp: Inputs)
      requires Sized(setup, Model()) && Fits(setup, inp)
      modifies this`runtime, this`history
      ensures Model() == Whole(setup, inp, old(Model()), Mounts)
    {
      hide Valid;
      for i := 0 to |setup.configs|
        invariant Model() == Loop(setup, inp, old(Model()), Mounts, i)
      {
        var rt := runtime[i];
        if setup.configs[i].mount == "" || !rt.state.Running? || !rt.reportedReady || rt.mounted {
          continue;
        }
        if !inp.mountOk[i] {
          runtime := runtime[i := rt.(state := Failed)];
          continue;
        }
        runtime := runtime[i := rt.(mounted := true, ready := true)];
        history := history + [MountedBy(i, rt.pid)];
      }
    }

    method IsReadyDepended(idx: nat) returns (b: bool)
      requires idx < |setup.configs|
      ensures b <==> ReadyDepended(setup.configs, idx)
    {
      var name := setup.configs[idx].name;
      for i := 0 to |setup.configs|
        invariant forall j :: 0 <= j < i && j != idx ==> name !in setup.configs[j].ready
      {
        if i != idx && name in setup.configs[i].ready {
          return true;
        }
      }
      return false;
    }

    method CheckReadyTimeouts(ghost inp: Inputs)
      requires Sized(setup, Model()) && Fits(setup, inp)
      modifies this`runtime
      ensures Model() == Whole(setup, inp, old(Model()), Timeouts)
    {
      hide Valid;
      for i := 0 to |setup.configs|
        invariant Model() == Loop(setup, inp, old(Model()), Timeouts, i)
      {
        var rt := runtime[i];
        if !rt.state.Running? || rt.ready || (ticks - rt.startTicks) % UINT32 < SVC_READY_TIMEOUT_MS {
          continue;
        }
        var depended := IsReadyDepended(i);
        if !depended {
          runtime := runtime[i := rt.(ready := true)];
        } else if rt.readyRetry < SVC_READY_MAX_RETRIES {
          runtime := runtime[i := rt.(readyRetry := rt.readyRetry + 1, startTicks := ticks)];
        } else {
          runtime := runtime[i := rt.(state := Failed)];
        }
      }
    }

    method PropagateFailedRequires(ghost inp: Inputs)
      requires Sized(setup, Model()) && Fits(setup, inp)
      modifies this`runtime
      ensures Model() == Whole(setup, inp, old(Model()), Failures)
    {
      hide Valid;
      for i := 0 to |setup.configs|
        invariant Model() == Loop(setup, inp, old(Model()), Failures, i)
      {
        if !runtime[i].state.Pending? {
          continue;
        }
        var names, failed := setup.configs[i].ready, false;
        for j := 0 to |names|
          invariant failed <==> exists n :: n in names[..j] && NameFailed(setup, runtime, n)
        {
          var dep := FindByName(setup.configs, names[j]);
          assert names[..j + 1] == names[..j] + [names[j]];
          assert forall n :: n in names[..j + 1] <==> n in names[..j] || n == names[j];
          if 0 <= dep && runtime[dep].state.Failed? {
            assert NameFailed(setup, runtime, names[j]);
            failed := true;
          }
        }
        assert names[..|names|] == names;
        if failed {
          runtime := runtime[i := runtime[i].(state := Failed)];
        }
      }
    }

    method LaunchReady(inp: Inputs)
      requires Sized(setup, Model()) && Fits(setup, inp)
      modifies this`runtime, this`history
      ensures Model() == Whole(setup, inp, old(Model()), Launches)
    {
      hide Valid, CanStart;
      for n := 0 to |setup.configs|
        invariant Model() == Loop(setup, inp, old(Model()), Launches, n)
      {
        OrderInRange(setup, n);
        var idx := setup.order[n];
        if !runtime[idx].state.Pending? {
          continue;
        }
        var can := CanStartAdvanced(idx);
        if !can {
          continue;
        }
        if setup.configs[idx].delayMs > 0 {
          runtime := runtime[idx := runtime[idx].(state := Waiting, delayStart := ticks)];
        } else {
          StartServiceAt(idx, inp.spawn[idx]);
        }
      }
    }

    method TickParallel(inp: Inputs)
      requires Sized(setup, Model()) && Fits(setup, inp)
      modifies this`runtime, this`history, this`ticks
      ensures Model() == Tick(setup, inp, old(Model()))
      ensures forall i: nat :: i < |runtime| && runtime[i].state.Pending? ==> !CanStart(setup, runtime, i)
    {
      hide Valid, CanStart, Loop;
      ticks := (ticks + TICK_MS) % UINT32;
      ProcessDelays(inp);
      TryMountServices(inp);
      CheckReadyTimeouts(inp);
      PropagateFailedRequires(inp);
      LaunchReady(inp);
      forall i: nat | i < |runtime| && runtime[i].state.Pending? ensures !CanStart(setup, runtime, i) {
        TickReachesFixpoint(setup, inp, old(Model()), i);
      }
    }

    method CascadeRestart(target: nat)
      requires |runtime| == |setup.configs| == |setup.deps|
      modifies this`runtime, this`signals
      ensures |runtime| == |setup.configs|
      ensures CascadedUpTo(GraphOf(setup.deps), old(runtime), runtime, target, |runtime|)
      ensures Cascaded(GraphOf(setup.deps), old(runtime), runtime, target)
      ensures old(signals) <= signals
      ensures Signalled(old(runtime), runtime, signals[|old(signals)|..])
      decreases ActiveSet(runtime)
    {
      hide Affected, Valid;
      ghost var g, before := GraphOf(setup.deps), runtime;
      for i := 0 to |setup.configs|
        invariant CascadedUpTo(g, before, runtime, target, i)
        invariant old(signals) <= signals && Signalled(before, runtime, signals[|old(signals)|..])
      {
        if target in Targets(setup.deps[i]) {
          if IsActive(runtime[i]) {
            ghost var cur, sent := runtime, signals;
            if runtime[i].pid > 0 {
              signals := signals + [(i, runtime[i].pid)];
            }
            runtime := runtime[i := Restarted(runtime[i])];
            assert i in ActiveSet(cur) && i !in ActiveSet(runtime);
            ghost var mid, sentMid := runtime, signals;
            CascadeRestart(i);
            CascadeComposes(g, before, cur, runtime, target, i);
            SignalsCompose(before, cur, mid, runtime, i, sent[|old(signals)|..], signals[|sentMid|..]);
            assert signals[|old(signals)|..] ==
                   sent[|old(signals)|..] + (if cur[i].pid > 0 then [(i, cur[i].pid)] else []) + signals[|sentMid|..];
          }
        }
      }
      CascadeIsExact(g, before, runtime, target);
    }

    method HandleReadyNotification(name: string, pid: int)
      requires Sized(setup, Model())
      modifies this`runtime, this`history
      ensures Step(setup, old(Model()), Notify(name, pid), Model())
    {
      hide Valid;
      var idx := FindByName(setup.configs, name);
      if idx < 0 {
        return;
      }
      history := history + [ReportedBy(idx, pid)];
      if runtime[idx].state.Running? && runtime[idx].pid == pid {
        runtime := runtime[idx := runtime[idx].(reportedReady := true)];
        if setup.configs[idx].mount == "" {
          runtime := runtime[idx := runtime[idx].(ready := true)];
        }
      }
    }

    method HandleExitOf(pid: int)
      requires Sized(setup, Model())
      modifies this`runtime
      ensures Step(setup, old(Model()), Exit(pid), Model())
    {
      hide Valid;
      for i := 0 to |runtime|
        invariant runtime == old(runtime) && FindPid(runtime, pid) == FindPid(runtime, pid, i)
      {
        if runtime[i].pid == pid {
          runtime := runtime[i := runtime[i].(state := Stopped, pid := -1, startTicks := 0, reportedReady := false,
                                              mounted := false, ready := false, readyRetry := 0)];
          if setup.configs[i].respawn && !runtime[i].manualStop {
            runtime := runtime[i := runtime[i].(state := Pending)];
          }
          return;
        }
      }
    }

    /** Also returns the pid to kill, or 0. */
    method HandleStopOf(name: string) returns (reply: Reply, state: Option<State>, pid: Option<int>, killPid: int)
      requires Sized(setup, Model())
      modifies this`runtime
      ensures Step(setup, old(Model()), StopCmd(name), Model())
      ensures reply == NotFound <==> forall i :: 0 <= i < |setup.configs| ==> setup.configs[i].name != name
      ensures reply == Already <==> exists i: nat :: Names(name, i) && old(runtime)[i].state in {Stopped, Failed}
      ensures reply == Done ==> exists i: nat :: Names(name, i) && killPid == runtime[i].pid && runtime[i].manualStop
      ensures reply == NotFound ==> state == None && pid == None
      ensures reply != NotFound ==> exists i: nat :: Names(name, i) && state == Some(runtime[i].state)
                                                     && pid == if reply == Done then Some(runtime[i].pid) else None
      ensures reply != Done ==> killPid == 0 && runtime == old(runtime)
    {
      hide Valid;
      var idx := FindByName(setup.configs, name);
      if idx < 0 {
        return NotFound, None, None, 0;
      }
      assert Names(name, idx);
      if runtime[idx].state.Stopped? || runtime[idx].state.Failed? {
        return Already, Some(runtime[idx].state), None, 0;
      }
      killPid := runtime[idx].pid;
      runtime := runtime[idx := runtime[idx].(manualStop := true)];
      reply, state, pid := Done, Some(runtime[idx].state), Some(runtime[idx].pid);
    }

    method HandleStartOf(name: string) returns (reply: Reply, state: Option<State>, pid: Option<int>)
      requires Sized(setup, Model())
      modifies this`runtime
      ensures Step(setup, old(Model()), StartCmd(name), Model())
      ensures reply == NotFound <==> forall i :: 0 <= i < |setup.configs| ==> setup.configs[i].name != name
      ensures reply == Already <==> exists i: nat :: Names(name, i) && old(runtime)[i].state == Running
      ensures reply == Done ==> exists i: nat :: Names(name, i) && runtime[i].state == Pending
      ensures reply != Already ==> state == None && pid == None
      ensures reply == Already ==>
                exists i: nat :: Names(name, i) && state == Some(Running) && pid == Some(runtime[i].pid)
      ensures reply != Done ==> runtime == old(runtime)
    {
      hide Valid;
      var idx := FindByName(setup.configs, name);
      if idx < 0 {
        return NotFound, None, None;
      }
      assert Names(name, idx);
      if runtime[idx].state.Running? {
        return Already, Some(Running), Some(runtime[idx].pid);
      }
      runtime := runtime[idx := runtime[idx].(manualStop := false, state := Pending)];
      reply, state, pid := Done, None, None;
    }

    /** The service's own process is signalled first, then those of the services the cascade resets. */
    method HandleRestartOf(name: string) returns (reply: Reply)
      requires Sized(setup, Model())
      modifies this`runtime, this`signals
      ensures Step(setup, old(Model()), RestartCmd(name), Model())
      ensures reply == NotFound <==> forall i :: 0 <= i < |setup.configs| ==> setup.configs[i].name != name
      ensures reply == NotFound ==> runtime == old(runtime) && signals == old(signals)
      ensures reply != NotFound ==> reply == Done && exists i: nat, rest ::
                Names(name, i) && signals == old(signals) + OwnSignal(old(runtime), i) + rest
                && Signalled(old(runtime)[i := ToRestart(old(runtime)[i])], runtime, rest)
    {
      hide Valid, Cascaded, Affected, Signalled;
      var idx := FindByName(setup.configs, name);
      if idx < 0 {
        return NotFound;
      }
      assert Names(name, idx);
      runtime := runtime[idx := ToRestart(runtime[idx])];
      if runtime[idx].pid > 0 {
        signals := signals + [(idx, runtime[idx].pid)];
      }
      ghost var sent := signals;
      assert sent == old(signals) + OwnSignal(old(runtime), idx);
      CascadeRestart(idx);
      assert signals == sent + signals[|sent|..];
      reply := Done;
    }

    /** Service `i` is the first one called `name`. */
    ghost predicate Names(name: string, i: nat) {
      i < |setup.configs| && FindByName(setup.configs, name) == i
    }
  }

  datatype Reply = Done | NotFound | Already

  function ToRestart(rt: Runtime): Runtime {
    rt.(manualStop := false, ready := false, state := Pending)
  }

  function OwnSignal(rt: seq<Runtime>, i: nat): seq<(nat, int)> {
    if i < |rt| && rt[i].pid > 0 then [(i, rt[i].pid)] else []
  }

  /** Exactly the changed services that had a process were signalled, each once. */
  ghost predicate Signalled(before: seq<Runtime>, after: seq<Runtime>, sent: seq<(nat, int)>) {
    && |before| == |after|
    && (forall k, l :: 0 <= k < l < |sent| ==> sent[k].0 != sent[l].0)
    && (forall e :: e in sent <==> Signals(before, after, e))
  }

  ghost predicate Signals(before: seq<Runtime>, after: seq<Runtime>, e: (nat, int)) {
    e.0 < |before| == |after| && before[e.0] != after[e.0] && e.1 == before[e.0].pid > 0
  }

  /** Services are only ever changed by resetting active ones. */
  ghost predicate OnlyResets(before: seq<Runtime>, after: seq<Runtime>) {
    && |before| == |after|
    && forall x :: 0 <= x < |before| ==>
         after[x] == before[x] || (after[x] == Restarted(before[x]) && IsActive(before[x]))
  }

  lemma SignalsCompose(before: seq<Runtime>, cur: seq<Runtime>, mid: seq<Runtime>, after: seq<Runtime>, i: nat,
                       first: seq<(nat, int)>, last: seq<(nat, int)>)
    requires Signalled(before, cur, first) && i < |cur| && mid == cur[i := Restarted(cur[i])]
    requires Signalled(mid, after, last) && IsActive(cur[i])
    requires OnlyResets(before, cur) && OnlyResets(mid, after)
    ensures Signalled(before, after, first + (if cur[i].pid > 0 then [(i, cur[i].pid)] else []) + last)
  {
    var one := if cur[i].pid > 0 then [(i, cur[i].pid)] else [];
    var all := first + one + last;
    assert cur[i] == before[i] && mid[i] == after[i];
    forall e ensures e in all <==> Signals(before, after, e) {
      assert e in all <==> e in first || e in one || e in last;
      assert e in first <==> Signals(before, cur, e);
      assert e in last <==> Signals(mid, after, e);
    }
    forall k, l | 0 <= k < l < |all| ensures all[k].0 != all[l].0 {
      assert all[k] in all[..|first|] || all[k] in one || all[k] in last;
      if k < |first| {
        assert all[k] == first[k] && Signals(before, cur, first[k]);
        if |first| + |one| <= l {
          assert all[l] == last[l - |first| - |one|] && all[l] in last && Signals(mid, after, all[l]);
        }
      } else if |first| + |one| <= l {
        assert all[l] == last[l - |first| - |one|] && all[l] in last && Signals(mid, after, all[l]);
        assert k < |first| + |one| || all[k] == last[k - |first| - |one|];
      }
    }
  }
}
