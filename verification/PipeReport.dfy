/**
  What a pipe write reports when one byte of the user's buffer cannot be read: the report is right in
  every history iff that byte is the first one.
  */
module PipeReport {
  import opened Bytes
  import opened Pipe
  import opened Wrappers

  /** The place in the user's buffer that the writer copies from next. */
  function Offset(s: State): nat {
    s.w.total + s.w.i
  }

  /** Copying from the user's buffer fails exactly at place `bad`. */
  ghost predicate Obeys(bad: Option<nat>, states: seq<State>, actions: seq<Action>) {
    |states| == |actions| + 1 &&
    forall k :: 0 <= k < |actions| && actions[k].WriteByte? ==> (actions[k].fault <==> bad == Some(Offset(states[k])))
  }

  /** If step `k` ends a write with a failed copy, it reports as many bytes as this write put in the pipe. */
  ghost predicate ReportsAt(states: seq<State>, actions: seq<Action>, k: nat) {
    Run(states, actions) && k < |actions| && actions[k] == WriteByte(true) ==>
      match Next(states[k], actions[k]).1
      case Running => false
      case Returned(v) => |states[k + 1].accepted| == |states[k].w.base| + Max(v, 0)
  }

  /** That is so in all histories in which copying fails at `bad`. */
  ghost predicate AlwaysReported(bad: Option<nat>) {
    forall states: seq<State>, actions: seq<Action>, k: nat ::
      Run(states, actions) && Obeys(bad, states, actions) ==> ReportsAt(states, actions, k)
  }

  /** It is so iff nothing fails or the first byte does. */
  lemma ReportIff(bad: Option<nat>)
    ensures AlwaysReported(bad) <==> bad == None || bad == Some(0)
  {
    hide Run, ReportsAt, Obeys;
    if bad == None || bad == Some(0) {
      forall states: seq<State>, actions: seq<Action>, k: nat | Run(states, actions) && Obeys(bad, states, actions)
        ensures ReportsAt(states, actions, k)
      {
        FirstByteIsReported(bad, states, actions, k);
      }
    } else {
      var s := Misreport(bad.value);
      WrongReport(bad.value, s);
    }
  }

  lemma FirstByteIsReported(bad: Option<nat>, states: seq<State>, actions: seq<Action>, k: nat)
    requires Run(states, actions) && Obeys(bad, states, actions) && (bad == None || bad == Some(0))
    ensures ReportsAt(states, actions, k)
  {
    hide Inv;
    if k < |actions| && actions[k] == WriteByte(true) {
      var s := states[k];
      WriteResult(states, actions, k, if s.w.total > 0 then s.w.total else EFAULT);
    }
  }

  // ------------------------------------------------------------ reaching a state

  /** Some history in which copying fails at `f` leads to `s`. */
  ghost predicate Reach(f: nat, s: State) {
    exists states: seq<State>, actions: seq<Action> :: Leads(f, s, states, actions)
  }

  ghost predicate Leads(f: nat, s: State, states: seq<State>, actions: seq<Action>) {
    Run(states, actions) && Obeys(Some(f), states, actions) && states[|actions|] == s
  }

  lemma LeadsOn(f: nat, s: State, a: Action, states: seq<State>, actions: seq<Action>)
    requires Leads(f, s, states, actions) && Enabled(s, a) && (a.WriteByte? ==> (a.fault <==> f == Offset(s)))
    ensures Leads(f, Next(s, a).0, states + [Next(s, a).0], actions + [a])
  {
    hide Next, Enabled, Initial;
    var states', actions' := states + [Next(s, a).0], actions + [a];
    forall k | 0 <= k < |actions'|
      ensures Enabled(states'[k], actions'[k]) && states'[k + 1] == Next(states'[k], actions'[k]).0
    {
      if k < |actions| {
        assert Enabled(states[k], actions[k]) && states[k + 1] == Next(states[k], actions[k]).0;
      }
    }
  }

  lemma ReachNext(f: nat, s: State, a: Action)
    requires Reach(f, s) && Enabled(s, a) && (a.WriteByte? ==> (a.fault <==> f == Offset(s)))
    ensures Reach(f, Next(s, a).0)
  {
    hide Leads, Next, Enabled;
    var states, actions :| Leads(f, s, states, actions);
    LeadsOn(f, s, a, states, actions);
  }

  lemma ReachInv(f: nat, s: State)
    requires Reach(f, s)
    ensures Inv(s)
  {
    hide Inv, Next, Enabled;
    var states, actions :| Leads(f, s, states, actions);
    RunKeepsInv(states, actions, |actions|);
  }

  lemma Beginning(f: nat) returns (s: State)
    ensures Reach(f, s) && Quiet(s) && s.w.pc == Idle && !s.wQueued && !s.wPending && Used(s.ring) == 0
  {
    var r, w := Reader(Idle, 0, 0, 0, 0, 0), Writer(Idle, [], [], 0, 0, 0);
    s := State(Ring(seq(PIPE_BUF_SIZE, _ => 0), 0, 0), 1, 1, r, false, false, w, false, false, [], [], [], false);
    assert Leads(f, s, [s], []);
  }

  /** No read is under way, and both ends are open. */
  predicate Quiet(s: State) {
    s.r.pc == Idle && !s.rQueued && !s.rPending && s.readers == 1 && s.writers == 1
  }

  /** A write of `d` copies byte `i` of a batch of `n` after `t` bytes in earlier batches. */
  predicate Copying(s: State, d: seq<byte>, t: nat, n: nat, i: nat) {
    && Quiet(s) && s.w.pc == Copy && s.w.data == d && s.w.total == t && s.w.n == n && s.w.i == i
    && !s.wQueued && !s.wPending
  }

  /** A write of `d` has found the ring full after `t` bytes. */
  predicate Stuck(s: State, d: seq<byte>, t: nat) {
    && Quiet(s) && s.w.pc == Block && s.w.data == d && s.w.total == t && s.wQueued && !s.wPending
    && Free(s.ring) == 0
  }

  // ------------------------------------------------------------ parts of a history

  lemma BeginWrite(f: nat, s: State, d: seq<byte>) returns (s': State)
    requires Reach(f, s) && Quiet(s) && s.w.pc == Idle && !s.wQueued && !s.wPending && d != []
    ensures Reach(f, s') && s'.ring == s.ring
    ensures Free(s.ring) > 0 ==> Copying(s', d, 0, Min(|d|, Free(s.ring)), 0)
    ensures Free(s.ring) <= 0 ==> s'.w.pc == Block && (Free(s.ring) == 0 ==> Stuck(s', d, 0))
  {
    hide Reach, Used;
    ReachInv(f, s);
    ReachNext(f, s, WriteCall(d));
    var s1 := Next(s, WriteCall(d)).0;
    ReachNext(f, s1, WriteLoop);
    s' := Next(s1, WriteLoop).0;
  }

  lemma CopyOne(f: nat, s: State, d: seq<byte>, t: nat, n: nat, i: nat) returns (s': State)
    requires Reach(f, s) && Copying(s, d, t, n, i) && i + 1 < n && t + i != f
    ensures Reach(f, s') && Copying(s', d, t, n, i + 1) && Used(s'.ring) == Used(s.ring) + 1
  {
    hide Reach, Used, Contents, Put;
    ReachInv(f, s);
    ReachNext(f, s, WriteByte(false));
    s' := Next(s, WriteByte(false)).0;
    PutAppends(s.ring, d[t + i]);
  }

  lemma {:induction false} CopyMany(f: nat, s: State, d: seq<byte>, t: nat, n: nat, i: nat, j: nat)
    returns (s': State)
    requires Reach(f, s) && Copying(s, d, t, n, i) && i <= j < n && !(t + i <= f < t + j)
    ensures Reach(f, s') && Copying(s', d, t, n, j) && Used(s'.ring) == Used(s.ring) + j - i
    decreases j - i
  {
    hide Reach, Used, Copying;
    s' := s;
    if i < j {
      var s1 := CopyOne(f, s, d, t, n, i);
      s' := CopyMany(f, s1, d, t, n, i + 1, j);
    }
  }

  /** The last byte of a batch ends the write, or fills the ring. */
  lemma CopyLast(f: nat, s: State, d: seq<byte>, t: nat, n: nat) returns (s': State)
    requires n > 0 && Reach(f, s) && Copying(s, d, t, n, n - 1) && t + n - 1 != f && Free(s.ring) == 1
    ensures Reach(f, s') && Quiet(s') && Free(s'.ring) == 0
    ensures t + n < |d| ==> Stuck(s', d, t + n)
    ensures t + n == |d| ==> s'.w.pc == Idle && !s'.wQueued && !s'.wPending
  {
    hide Reach, Used, Contents, Put;
    ReachInv(f, s);
    ReachNext(f, s, WriteByte(false));
    s' := Next(s, WriteByte(false)).0;
    PutAppends(s.ring, d[t + n - 1]);
  }

  /** A read of one or two bytes while the write is stuck. */
  lemma ReadSome(f: nat, s: State, d: seq<byte>, t: nat, m: nat) returns (s': State)
    requires Reach(f, s) && Stuck(s, d, t) && 1 <= m <= 2
    ensures Reach(f, s') && Quiet(s') && Free(s'.ring) == m
    ensures s'.w == s.w && !s'.wQueued && s'.wPending
  {
    hide Reach, Used, Contents, Take;
    ReachInv(f, s);
    ReachNext(f, s, ReadCall(m));
    var s1 := Next(s, ReadCall(m)).0;
    ReachNext(f, s1, ReadLoop);
    var s2 := Next(s1, ReadLoop).0;
    TakeRemoves(s.ring);
    ReachNext(f, s2, ReadByte(false));
    s' := Next(s2, ReadByte(false)).0;
    if m == 2 {
      TakeRemoves(s2.ring);
      ReachNext(f, s', ReadByte(false));
      s' := Next(s', ReadByte(false)).0;
    }
  }

  /** After that the write goes on with a batch of what was read. */
  lemma GoOn(f: nat, s: State, d: seq<byte>, t: nat, m: nat) returns (s': State)
    requires Reach(f, s) && Stuck(s, d, t) && 1 <= m <= 2 && m <= |d| - t
    ensures Reach(f, s') && Copying(s', d, t, m, 0) && Free(s'.ring) == m
  {
    hide Reach, Used;
    ReachInv(f, s);
    var s1 := ReadSome(f, s, d, t, m);
    ReachInv(f, s1);
    ReachNext(f, s1, WriteBlock);
    var s2 := Next(s1, WriteBlock).0;
    ReachNext(f, s2, WriteLoop);
    s' := Next(s2, WriteLoop).0;
  }

  /** Byte by byte the write gets anywhere before `f`. */
  lemma {:induction false} GetTo(f: nat, s: State, d: seq<byte>, t: nat) returns (s': State)
    requires Reach(f, s) && Stuck(s, d, 0) && t <= f && t < |d|
    ensures Reach(f, s') && Stuck(s', d, t)
  {
    hide Reach, Used, Stuck, Copying;
    s' := s;
    if t > 0 {
      var s1 := GetTo(f, s, d, t - 1);
      var s2 := GoOn(f, s1, d, t - 1, 1);
      s' := CopyLast(f, s2, d, t - 1, 1);
    }
  }

  /** For every place but the first a history gets there in the middle of a batch. */
  lemma Misreport(f: nat) returns (s: State)
    requires f > 0
    ensures Reach(f, s) && s.w.pc == Copy && Offset(s) == f && s.w.i > 0
  {
    hide Reach, Used, Stuck;
    var d: seq<byte> := seq(f + 1, _ => 0);
    s := Beginning(f);
    if f < PIPE_BUF_SIZE - 1 {
      s := BeginWrite(f, s, d);
      s := CopyMany(f, s, d, 0, f + 1, 0, f);
    } else {
      var n := PIPE_BUF_SIZE - 1;
      var fill: seq<byte> := seq(n, _ => 0);
      s := BeginWrite(f, s, fill);
      s := CopyMany(f, s, fill, 0, n, 0, n - 1);
      s := CopyLast(f, s, fill, 0, n);
      s := BeginWrite(f, s, d);
      s := GetTo(f, s, d, f - 1);
      s := GoOn(f, s, d, f - 1, 2);
      s := CopyOne(f, s, d, f - 1, 2, 0);
    }
  }

  lemma WrongReport(f: nat, s: State)
    requires Reach(f, s) && s.w.pc == Copy && Offset(s) == f && s.w.i > 0
    ensures !AlwaysReported(Some(f))
  {
    hide Contents;
    ReachInv(f, s);
    var states, actions :| Leads(f, s, states, actions);
    var a := WriteByte(true);
    LeadsOn(f, s, a, states, actions);
    var s' := Next(s, a).0;
    assert s'.accepted == s.accepted && |s.accepted| == |s.w.base| + s.w.total + s.w.i;
    assert !ReportsAt(states + [s'], actions + [a], |actions|);
  }
}
