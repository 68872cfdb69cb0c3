/**
  Whom `ipc_reply` answers: the thread a server has last received from, which need not be in the same
  call any more. And which of several waiting threads a rendezvous takes: the newest.
  */
module EndpointReply {
  import opened Endpoint
  import opened EndpointHistory
  import opened Lists
  import opened Wrappers

  // ---------------------------------------------------------------- the peer

  /** Delivery `i` is the last one to thread `t`. */
  ghost predicate LastTo(s: State, t: nat, i: nat) {
    i < |s.log| && To(s, i) == Some(t) && forall j: nat :: i < j < |s.log| ==> To(s, j) != Some(t)
  }

  /** The thread that got delivery `i`. */
  function To(s: State, i: nat): Option<nat> {
    if i < |s.log| && s.log[i].recv < |s.ops| then Some(s.ops[s.log[i].recv].tid) else None
  }

  /** The thread whose message delivery `i` carries. */
  function From(s: State, i: nat): Option<nat> {
    if i < |s.log| && s.log[i].send < |s.ops| then Some(s.ops[s.log[i].send].tid) else None
  }

  /** A step that delivers makes the sender the peer of the receiver; a reply clears the peer of the thread
      that replies; nothing else changes a peer. */
  lemma PeerChanges(s: State, a: Action, t: nat)
    requires Inv(s) && Enabled(s, a) && t < |s.peer|
    ensures var s' := Next(s, a);
            && |s'.peer| == |s.peer| && |s.log| <= |s'.log| <= |s.log| + 1
            && s'.peer[t] == if |s'.log| > |s.log| && To(s', |s.log|) == Some(t) then From(s', |s.log|)
                             else if a == DoReply(t) then None else s.peer[t]
  {
    hide Phased, Queued, Exclusive, LogOk, Counted;
    match a
    case DoSend(u, ep, _, _, _) => if s.recvq[ep] != [] { RecvHead(s, ep); }
    case DoReceive(u, ep, _) => if s.sendq[ep] != [] { SendHead(s, ep); }
    case _ =>
  }

  /** A thread's peer is the sender of the last delivery to it. */
  ghost predicate PeerOk(s: State, t: nat) {
    t < |s.peer| && s.peer[t].Some? ==> exists i: nat :: LastTo(s, t, i) && From(s, i) == s.peer[t]
  }

  ghost predicate Peered(s: State) {
    forall t: nat :: PeerOk(s, t)
  }

  lemma HistoryGrows(s: State, a: Action)
    requires Inv(s) && Enabled(s, a)
    ensures s.log <= Next(s, a).log && s.ops <= Next(s, a).ops
  {
    hide Phased, Queued, Exclusive, LogOk, Counted;
  }

  lemma DeliveriesStay(s: State, a: Action, i: nat)
    requires Inv(s) && Enabled(s, a) && i < |s.log|
    ensures To(Next(s, a), i) == To(s, i) && From(Next(s, a), i) == From(s, i)
  {
    hide Next, Phased, Queued, Exclusive, Counted;
    HistoryGrows(s, a);
    assert DeliveryOk(s, s.log[i]);
  }

  lemma StepKeepsPeers(s: State, a: Action)
    requires Inv(s) && Enabled(s, a) && Peered(s)
    ensures Peered(Next(s, a))
  {
    hide Next, Inv, Enabled;
    var s' := Next(s, a);
    forall t: nat | t < |s'.peer| && s'.peer[t].Some?
      ensures exists i: nat :: LastTo(s', t, i) && From(s', i) == s'.peer[t]
    {
      PeerLength(s, a);
      PeerChanges(s, a, t);
      HistoryGrows(s, a);
      if |s'.log| > |s.log| && To(s', |s.log|) == Some(t) {
        assert LastTo(s', t, |s.log|);
      } else {
        assert PeerOk(s, t);
        var i: nat :| LastTo(s, t, i) && From(s, i) == s.peer[t];
        forall j: nat | i <= j < |s.log| ensures To(s', j) == To(s, j) && From(s', j) == From(s, j) {
          DeliveriesStay(s, a, j);
        }
        assert LastTo(s', t, i);
      }
    }
  }

  lemma PeerLength(s: State, a: Action)
    requires Inv(s) && Enabled(s, a)
    ensures |Next(s, a).peer| == |s.peer|
  {
    hide Phased, Queued, Exclusive, LogOk, Counted;
    match a
    case DoSend(u, ep, _, _, _) => if s.recvq[ep] != [] { RecvHead(s, ep); }
    case DoReceive(u, ep, _) => if s.sendq[ep] != [] { SendHead(s, ep); }
    case _ =>
  }

  lemma {:induction false} RunIsPeered(s: State, actions: seq<Action>)
    requires Inv(s) && Peered(s)
    ensures Peered(Run(s, actions))
    decreases |actions|
  {
    hide Next, Inv, Enabled, Peered;
    if actions != [] {
      if Enabled(s, actions[0]) {
        StepKeeps(s, actions[0]);
        StepKeepsPeers(s, actions[0]);
        RunIsPeered(Next(s, actions[0]), actions[1..]);
      } else {
        RunIsPeered(s, actions[1..]);
      }
    }
  }

  /** In every history a thread's peer is the sender of the last delivery to it. */
  lemma HistoryIsPeered(threads: nat, endpoints: nat, actions: seq<Action>)
    ensures Peered(History(threads, endpoints, actions))
  {
    hide Inv, Run;
    InitInv(threads, endpoints);
    assert Peered(Init(threads, endpoints));
    RunIsPeered(Init(threads, endpoints), actions);
  }

  // ---------------------------------------------------------------- the reply

  /** A reply of thread `t` answers a call of the thread `t` has last received from. It answers the call it
      received iff that call has not returned. */
  lemma ReplyAnswers(threads: nat, endpoints: nat, actions: seq<Action>, t: nat) returns (i: nat)
    requires Enabled(History(threads, endpoints, actions), DoReply(t))
    ensures var s := History(threads, endpoints, actions);
            var s' := Next(s, DoReply(t));
            && LastTo(s, t, i) && DeliveryOk(s, s.log[i]) && |s'.replies| == |s.replies| + 1
            && s'.replies[..|s.replies|] == s.replies && s'.replies[|s.replies|] < |s.ops|
            && Some(s.ops[s'.replies[|s.replies|]].tid) == From(s, i)
            && (s'.replies[|s.replies|] == s.log[i].send <==> s.log[i].send !in s.results)
  {
    hide Phased, Queued, Exclusive, Run;
    var s := History(threads, endpoints, actions);
    HistoryIsPeered(threads, endpoints, actions);
    assert PeerOk(s, t);
    i :| LastTo(s, t, i) && From(s, i) == s.peer[t];
    DeliveryAt(s, i);
    CallerOp(s, s.peer[t].value);
    SendAt(s, s.log[i].send);
  }

  lemma CallerOp(s: State, u: nat)
    requires Inv(s) && AwaitsReply(s, u)
    ensures var op := s.phases[u].op;
            op < |s.ops| && s.ops[op].tid == u && op !in s.results && s.ops[op].Send? && !s.ops[op].oneWay
  {
    assert PhaseOk(s, u);
  }

  lemma InsideIsOpen(s: State, u: nat)
    requires Inv(s) && u < |s.phases| && s.phases[u] != Idle
    ensures s.phases[u].op !in s.results
  {
    assert PhaseOk(s, u);
  }

  /** A send that has not returned is the one its thread is in. */
  lemma SendAt(s: State, op: nat)
    requires Inv(s) && op < |s.ops|
    ensures op !in s.results ==>
              s.ops[op].tid < |s.phases| && s.phases[s.ops[op].tid] != Idle && s.phases[s.ops[op].tid].op == op
  {
    assert OpOk(s, op);
  }

  // --------------------------------------------------- servers that reply in turn

  /** Calls without timeouts, no delayed replies, and a server replies only after it received a call. */
  ghost predicate Orderly(s: State, a: Action) {
    match a
    case DoSend(_, _, _, _, timed) => !timed
    case DoReceive(_, _, timed) => !timed
    case DoReplyTo(_, _) => false
    case DoReply(t) =>
      forall i: nat :: LastTo(s, t, i) && i < |s.log| && s.log[i].send < |s.ops| ==> IsCall(s, s.log[i].send)
    case _ => true
  }

  predicate IsCall(s: State, op: nat) {
    op < |s.ops| && s.ops[op].Send? && !s.ops[op].oneWay
  }

  /** Every action of the sequence that takes place is of that kind. */
  ghost predicate AllOrderly(s: State, actions: seq<Action>)
    requires Inv(s)
    decreases |actions|
  {
    actions != [] ==>
      if Enabled(s, actions[0]) then
        StepKeeps(s, actions[0]);
        Orderly(s, actions[0]) && AllOrderly(Next(s, actions[0]), actions[1..])
      else AllOrderly(s, actions[1..])
  }

  /** A server that has a peer and last received a call has a caller that still waits in that call. */
  ghost predicate Waits(s: State, t: nat, i: nat) {
    t < |s.peer| && s.peer[t].Some? && LastTo(s, t, i) && s.log[i].send < |s.ops| && IsCall(s, s.log[i].send) ==>
      var u := s.ops[s.log[i].send].tid;
      u < |s.phases| && s.phases[u].Calling? && s.phases[u].op == s.log[i].send
  }

  ghost predicate AllWait(s: State) {
    && (forall t: nat, i: nat :: Waits(s, t, i))
    && (forall op: nat :: op < |s.ops| ==> !s.ops[op].timed)
  }

  lemma CallerStays(s: State, a: Action, u: nat)
    requires Inv(s) && Enabled(s, a) && u < |s.phases| && s.phases[u].Calling?
    requires a != Fire(u) && a != Expire(u) && !(a.DoReplyTo? && a.caller == u)
    requires !(a.DoReply? && s.peer[a.t] == Some(u))
    ensures u < |Next(s, a).phases| && Next(s, a).phases[u] == s.phases[u]
  {
    hide Phased, Queued, Exclusive, LogOk, Counted;
    match a
    case DoSend(t, ep, _, _, _) => if s.recvq[ep] != [] { RecvHead(s, ep); }
    case DoReceive(t, ep, _) => if s.sendq[ep] != [] { SendHead(s, ep); }
    case _ =>
  }

  /** A call that is delivered leaves its caller waiting for the answer, unless a timer fired. */
  lemma NewCallWaits(s: State, a: Action)
    requires Inv(s) && Enabled(s, a) && (forall op: nat :: op < |s.ops| ==> !s.ops[op].timed)
    ensures var s', n := Next(s, a), |s.log|;
            n < |s'.log| && s'.log[n].send < |s'.ops| && IsCall(s', s'.log[n].send) ==>
              var u := s'.ops[s'.log[n].send].tid;
              u < |s'.phases| && s'.phases[u].Calling? && s'.phases[u].op == s'.log[n].send
  {
    hide Phased, Queued, Exclusive, LogOk, Counted;
    match a
    case DoSend(t, ep, _, _, _) => if s.recvq[ep] != [] { RecvHead(s, ep); }
    case DoReceive(t, ep, _) => if s.sendq[ep] != [] { SendHead(s, ep); }
    case _ =>
  }

  lemma FiredIsTimed(s: State, u: nat)
    requires Inv(s) && Enabled(s, Expire(u))
    ensures s.phases[u].op < |s.ops| && s.ops[s.phases[u].op].timed
  {
    hide Queued, Exclusive, LogOk, Counted;
    assert PhaseOk(s, u);
  }

  lemma NothingIsTimed(s: State, a: Action)
    requires Inv(s) && Enabled(s, a) && AllWait(s) && Orderly(s, a)
    ensures !a.Fire? && !a.Expire? && forall op: nat :: op < |Next(s, a).ops| ==> !Next(s, a).ops[op].timed
  {
    hide Queued, Exclusive, LogOk, Counted, Waits, Phased;
    if a.Expire? {
      FiredIsTimed(s, a.t);
    }
  }

  /** Two servers never wait to answer the same call. */
  lemma OneServer(s: State, i: nat, j: nat)
    requires Inv(s) && i < |s.log| && j < |s.log| && s.log[i].send == s.log[j].send
    ensures i == j
  {
    hide Phased, Queued, Exclusive;
    DeliveryAt(s, i);
    assert OpOk(s, s.log[i].send);
    SentOnce(s.log, s.log[i].send, i, j);
  }

  lemma StepKeepsWaits(s: State, a: Action, t: nat, i: nat)
    requires Inv(s) && Enabled(s, a) && Peered(s) && AllWait(s) && Orderly(s, a)
    ensures Waits(Next(s, a), t, i)
  {
    hide Next, Inv, Phased, Queued, Exclusive, LogOk, Counted;
    var s' := Next(s, a);
    NothingIsTimed(s, a);
    PeerLength(s, a);
    HistoryGrows(s, a);
    if && t < |s'.peer| && s'.peer[t].Some? && LastTo(s', t, i) && s'.log[i].send < |s'.ops|
       && IsCall(s', s'.log[i].send) {
      PeerChanges(s, a, t);
      NewCallWaits(s, a);
      if i < |s.log| {
        OldDeliveryWaits(s, a, t, i);
      }
    }
  }

  lemma OldDeliveryWaits(s: State, a: Action, t: nat, i: nat)
    requires Inv(s) && Enabled(s, a) && Peered(s) && AllWait(s) && Orderly(s, a) && !a.Fire? && !a.Expire?
    requires t < |Next(s, a).peer| && Next(s, a).peer[t].Some? && i < |s.log| && LastTo(Next(s, a), t, i)
    requires s.log[i].send < |Next(s, a).ops| && IsCall(Next(s, a), s.log[i].send) && s.log <= Next(s, a).log
    ensures var s' := Next(s, a);
            var u := s'.ops[s.log[i].send].tid;
            u < |s'.phases| && s'.phases[u].Calling? && s'.phases[u].op == s.log[i].send
  {
    hide Next, Inv, Enabled;
    var s' := Next(s, a);
    PeerLength(s, a);
    PeerChanges(s, a, t);
    HistoryGrows(s, a);
    DeliveryAt(s, i);
    forall j: nat | i <= j < |s.log| ensures To(s', j) == To(s, j) {
      DeliveriesStay(s, a, j);
    }
    assert s'.log[|s.log|..] == [] || To(s', |s.log|) != Some(t);
    assert LastTo(s, t, i);
    assert Waits(s, t, i);
    var u := s.ops[s.log[i].send].tid;
    if a.DoReply? {
      NotThisCaller(s, a.t, t, i);
    }
    CallerStays(s, a, u);
  }

  /** A server that replies in turn answers its own caller. */
  lemma NotThisCaller(s: State, r: nat, t: nat, i: nat)
    requires Inv(s) && Enabled(s, DoReply(r)) && Peered(s) && AllWait(s) && Orderly(s, DoReply(r)) && r != t
    requires t < |s.peer| && s.peer[t].Some? && LastTo(s, t, i) && s.log[i].send < |s.ops| && IsCall(s, s.log[i].send)
    ensures s.peer[r] != Some(s.ops[s.log[i].send].tid)
  {
    hide Inv, Next;
    assert PeerOk(s, r);
    var j: nat :| LastTo(s, r, j) && From(s, j) == s.peer[r];
    assert Waits(s, t, i) && Waits(s, r, j);
    if s.log[i].send == s.log[j].send {
      OneServer(s, i, j);
    }
  }

  lemma {:induction false} RunWaits(s: State, actions: seq<Action>)
    requires Inv(s) && Peered(s) && AllWait(s) && AllOrderly(s, actions)
    ensures AllWait(Run(s, actions))
    decreases |actions|
  {
    hide Next, Inv, Enabled, Peered, Orderly, Waits;
    if actions != [] {
      var a := actions[0];
      if Enabled(s, a) {
        StepKeeps(s, a);
        StepKeepsPeers(s, a);
        NothingIsTimed(s, a);
        forall t: nat, i: nat ensures Waits(Next(s, a), t, i) {
          StepKeepsWaits(s, a, t, i);
        }
        RunWaits(Next(s, a), actions[1..]);
      } else {
        RunWaits(s, actions[1..]);
      }
    }
  }

  /** Where servers reply in turn, a reply answers exactly the call that was last received. */
  lemma OrderlyReply(threads: nat, endpoints: nat, actions: seq<Action>, t: nat) returns (i: nat)
    requires InitIsValid(threads, endpoints) && AllOrderly(Init(threads, endpoints), actions)
    requires Enabled(History(threads, endpoints, actions), DoReply(t))
    requires Orderly(History(threads, endpoints, actions), DoReply(t))
    ensures var s := History(threads, endpoints, actions);
            LastTo(s, t, i) && Next(s, DoReply(t)).replies == s.replies + [s.log[i].send]
  {
    hide Inv, Run, AllOrderly;
    var s0, s := Init(threads, endpoints), History(threads, endpoints, actions);
    InitInv(threads, endpoints);
    HistoryIsPeered(threads, endpoints, actions);
    assert Peered(s0) && AllWait(s0);
    RunWaits(s0, actions);
    i := ReplyAnswers(threads, endpoints, actions, t);
    assert Waits(s, t, i);
    InsideIsOpen(s, s.ops[s.log[i].send].tid);
    var s' := Next(s, DoReply(t));
    assert s'.replies == s'.replies[..|s.replies|] + [s'.replies[|s.replies|]];
  }

  ghost predicate InitIsValid(threads: nat, endpoints: nat) {
    Inv(Init(threads, endpoints))
  }

  // ------------------------------------------------------------- a stray reply

  /** Server 0 has received a call of thread 1, and thread 2 has answered it. */
  function Answered(m: nat): State {
    State([Idle, Idle, Idle], [None, None, None], [Some(1), None, None], [[]], [[]],
          [Receive(0, 0, false), Send(1, 0, m, false, false)], map[0 := Done, 1 := Done], [Delivery(1, 0, m)], [1], {})
  }

  /** Then thread 1 has called again, and thread 2 has received that call. */
  function CalledAgain(m: nat): State {
    State([Idle, Calling(3, false), Leaving(2, Done)], [None, Some(m), None], [Some(1), None, Some(1)], [[]], [[]],
          [Receive(0, 0, false), Send(1, 0, m, false, false), Receive(2, 0, false), Send(1, 0, m, false, false)],
          map[0 := Done, 1 := Done], [Delivery(1, 0, m), Delivery(3, 2, m)], [1], {})
  }

  function FirstCall(m: nat): seq<Action> {
    [DoReceive(0, 0, false), DoSend(1, 0, m, false, false), Return(0), DoReplyTo(2, 1), Return(1)]
  }

  function SecondCall(m: nat): seq<Action> {
    [DoReceive(2, 0, false), DoSend(1, 0, m, false, false)]
  }

  lemma OneMore(s: State, a: Action, rest: seq<Action>)
    requires Inv(s) && Enabled(s, a)
    ensures Inv(Next(s, a)) && Run(s, [a] + rest) == Run(Next(s, a), rest)
  {
    hide Inv, Next, Enabled;
    StepKeeps(s, a);
    assert ([a] + rest)[1..] == rest;
  }

  /** The states of the first call, before the answer. */
  function Taken(m: nat): State {
    State([Idle, Calling(1, false), Idle], [None, Some(m), None], [Some(1), None, None], [[]], [[]],
          [Receive(0, 0, false), Send(1, 0, m, false, false)], map[0 := Done], [Delivery(1, 0, m)], [], {})
  }

  lemma FirstCallTaken(m: nat)
    ensures InitIsValid(3, 1)
    ensures Inv(Taken(m)) && Run(Init(3, 1), FirstCall(m)) == Run(Taken(m), [DoReplyTo(2, 1), Return(1)])
  {
    hide Phased, Queued, Exclusive, LogOk, Counted, Run;
    InitInv(3, 1);
    var s0 := Init(3, 1);
    assert s0 == State([Idle, Idle, Idle], [None, None, None], [None, None, None], [[]], [[]], [], map[], [], [], {});
    var a0, a1, a2 := DoReceive(0, 0, false), DoSend(1, 0, m, false, false), Return(0);
    var rest := [DoReplyTo(2, 1), Return(1)];
    assert FirstCall(m) == [a0] + ([a1] + ([a2] + rest));
    OneMore(s0, a0, [a1] + ([a2] + rest));
    var s1 := Next(s0, a0);
    assert s1.phases == [Receiving(0, false), Idle, Idle] && [0] + [] == [0] && s1.recvq == [[0]];
    OneMore(s1, a1, [a2] + rest);
    var s2 := Next(s1, a1);
    assert s2.phases == [Leaving(0, Done), Calling(1, false), Idle] && s2.recvq == [[]];
    OneMore(s2, a2, rest);
    assert Next(s2, a2) == Taken(m);
  }

  lemma FirstCallAnswered(m: nat)
    requires Inv(Taken(m))
    ensures Inv(Answered(m)) && Run(Taken(m), [DoReplyTo(2, 1), Return(1)]) == Answered(m)
  {
    hide Phased, Queued, Exclusive, LogOk, Counted;
    var s := Taken(m);
    OneMore(s, DoReplyTo(2, 1), [Return(1)]);
    var s1 := Next(s, DoReplyTo(2, 1));
    assert s1.phases == [Idle, Leaving(1, Done), Idle];
    OneMore(s1, Return(1), []);
    assert [DoReplyTo(2, 1), Return(1)] == [DoReplyTo(2, 1)] + [Return(1)] && [Return(1)] == [Return(1)] + [];
    assert Next(s1, Return(1)) == Answered(m);
  }

  lemma SecondCallTaken(m: nat)
    requires Inv(Answered(m))
    ensures Inv(CalledAgain(m)) && Run(Answered(m), SecondCall(m)) == CalledAgain(m)
  {
    hide Phased, Queued, Exclusive, LogOk, Counted;
    var s := Answered(m);
    var a0, a1 := DoReceive(2, 0, false), DoSend(1, 0, m, false, false);
    assert SecondCall(m) == [a0] + [a1] && [a1] == [a1] + [];
    OneMore(s, a0, [a1]);
    var s1 := Next(s, a0);
    assert s1.phases == [Idle, Idle, Receiving(2, false)] && [2] + [] == [2] && s1.recvq == [[2]];
    OneMore(s1, a1, []);
    assert Next(s1, a1) == CalledAgain(m);
  }

  /** For every message a history in which server 0 last received call 1, which another thread has
      answered, and in which its reply answers call 3, which it never received. */
  lemma StrayReply(m: nat)
    ensures var s := History(3, 1, FirstCall(m) + SecondCall(m));
            && Enabled(s, DoReply(0)) && LastTo(s, 0, 0) && s.log[0].send == 1
            && Next(s, DoReply(0)).replies == [1, 3] && s.log == [Delivery(1, 0, m), Delivery(3, 2, m)]
  {
    hide Inv, Run, FirstCall, SecondCall;
    FirstCallTaken(m);
    FirstCallAnswered(m);
    SecondCallTaken(m);
    RunTwice(Init(3, 1), FirstCall(m), SecondCall(m));
    var s := CalledAgain(m);
    assert To(s, 0) == Some(0) && To(s, 1) == Some(2);
    assert LastTo(s, 0, 0);
  }

  // --------------------------------------------------------------- who is taken

  /** The operation a thread is in; later ones have higher numbers. */
  function Since(s: State, t: nat): int {
    if t < |s.phases| && s.phases[t] != Idle then s.phases[t].op else -1
  }

  /** The queue is ordered by when its threads came, the newest first. */
  ghost predicate NewestFirst(s: State, q: seq<nat>) {
    forall i, j :: 0 <= i < j < |q| ==> Since(s, q[i]) > Since(s, q[j])
  }

  ghost predicate Ordered(s: State) {
    && (forall ep: nat :: ep < |s.sendq| ==> NewestFirst(s, s.sendq[ep]))
    && (forall ep: nat :: ep < |s.recvq| ==> NewestFirst(s, s.recvq[ep]))
  }

  /** How a step changes a queue: not at all, or a new thread comes first, the first one goes, or one
      takes itself out. */
  ghost predicate QueueMoves(s: State, s': State, q: seq<nat>, q': seq<nat>) {
    && (forall u :: u in q && u in q' ==> Since(s', u) == Since(s, u))
    && (|| q' == q
        || (exists t :: q' == [t] + q && t !in q && Since(s', t) == |s.ops|)
        || (q != [] && q' == q[1..])
        || (exists t :: q' == Without(q, t)))
  }

  lemma MovesKeepOrder(s: State, s': State, q: seq<nat>, q': seq<nat>)
    requires NewestFirst(s, q) && QueueMoves(s, s', q, q') && Distinct(q)
    requires forall u :: u in q ==> Since(s, u) < |s.ops|
    ensures NewestFirst(s', q')
  {
    hide Since;
    if t :| q' == Without(q, t) {
      WithoutFacts(q, t, 0);
      WithoutKeepsOrder(s, q, t);
      forall i, j | 0 <= i < j < |q'| ensures Since(s', q'[i]) > Since(s', q'[j]) {
        assert q'[i] in q' && q'[j] in q';
      }
    } else {
      forall i, j | 0 <= i < j < |q'| ensures Since(s', q'[i]) > Since(s', q'[j]) {
        assert q'[i] in q' && q'[j] in q';
      }
    }
  }

  lemma {:induction false} WithoutKeepsOrder(s: State, q: seq<nat>, t: nat)
    requires NewestFirst(s, q) && Distinct(q)
    ensures NewestFirst(s, Without(q, t))
  {
    hide Since;
    if q != [] {
      var r := q[1..];
      assert NewestFirst(s, r) && Distinct(r);
      WithoutKeepsOrder(s, r, t);
      WithoutFacts(r, t, 0);
      var w := Without(r, t);
      forall j | 0 <= j < |w| ensures Since(s, q[0]) > Since(s, w[j]) {
        assert w[j] in w && w[j] in r;
      }
      var q' := Without(q, t);
      forall i, j | 0 <= i < j < |q'| ensures Since(s, q'[i]) > Since(s, q'[j]) {
        if q[0] != t && i > 0 {
          assert q'[i] == w[i - 1] && q'[j] == w[j - 1];
        }
      }
    }
  }

  lemma StepMovesQueues(s: State, a: Action, ep: nat)
    requires Inv(s) && Enabled(s, a) && ep < |s.sendq|
    ensures var s' := Next(s, a);
            && |s'.sendq| == |s.sendq| && |s'.recvq| == |s.recvq|
            && QueueMoves(s, s', s.sendq[ep], s'.sendq[ep]) && QueueMoves(s, s', s.recvq[ep], s'.recvq[ep])
  {
    hide Exclusive, LogOk, Counted, Without, QueueMoves, Phased, Queued;
    match a
    case DoSend(t, e, _, _, _) => SendMovesQueues(s, a, ep);
    case DoReceive(t, e, _) => ReceiveMovesQueues(s, a, ep);
    case Expire(t) => ExpireMovesQueues(s, t, ep);
    case _ => OthersMoveNothing(s, a, ep);
  }

  lemma SendMovesQueues(s: State, a: Action, ep: nat)
    requires Inv(s) && Enabled(s, a) && ep < |s.sendq| && a.DoSend?
    ensures var s' := Next(s, a);
            && |s'.sendq| == |s.sendq| && |s'.recvq| == |s.recvq|
            && QueueMoves(s, s', s.sendq[ep], s'.sendq[ep]) && QueueMoves(s, s', s.recvq[ep], s'.recvq[ep])
  {
    hide Exclusive, LogOk, Counted, Without, Phased;
    assert IsQueue(s.sendq[ep], SendersAt(s, ep)) && IsQueue(s.recvq[ep], ReceiversAt(s, ep));
    if s.recvq[a.ep] != [] {
      RecvHead(s, a.ep);
    }
  }

  lemma ReceiveMovesQueues(s: State, a: Action, ep: nat)
    requires Inv(s) && Enabled(s, a) && ep < |s.sendq| && a.DoReceive?
    ensures var s' := Next(s, a);
            && |s'.sendq| == |s.sendq| && |s'.recvq| == |s.recvq|
            && QueueMoves(s, s', s.sendq[ep], s'.sendq[ep]) && QueueMoves(s, s', s.recvq[ep], s'.recvq[ep])
  {
    hide Exclusive, LogOk, Counted, Without, Phased;
    assert IsQueue(s.sendq[ep], SendersAt(s, ep)) && IsQueue(s.recvq[ep], ReceiversAt(s, ep));
    if s.sendq[a.ep] != [] {
      SendHead(s, a.ep);
    }
  }

  lemma ExpireMovesQueues(s: State, t: nat, ep: nat)
    requires Inv(s) && Enabled(s, Expire(t)) && ep < |s.sendq|
    ensures var s' := Next(s, Expire(t));
            && |s'.sendq| == |s.sendq| && |s'.recvq| == |s.recvq|
            && QueueMoves(s, s', s.sendq[ep], s'.sendq[ep]) && QueueMoves(s, s', s.recvq[ep], s'.recvq[ep])
  {
    hide Exclusive, LogOk, Counted, Without;
    assert PhaseOk(s, t);
    assert IsQueue(s.sendq[ep], SendersAt(s, ep)) && IsQueue(s.recvq[ep], ReceiversAt(s, ep));
    WithoutFacts(s.sendq[ep], t, 0);
    WithoutFacts(s.recvq[ep], t, 0);
    var s' := Next(s, Expire(t));
    assert t !in s'.sendq[ep] && t !in s'.recvq[ep];
    assert s'.phases == s.phases[t := Idle];
  }

  lemma OthersMoveNothing(s: State, a: Action, ep: nat)
    requires Inv(s) && Enabled(s, a) && ep < |s.sendq| && !a.DoSend? && !a.DoReceive? && !a.Expire?
    ensures var s' := Next(s, a);
            && |s'.sendq| == |s.sendq| && |s'.recvq| == |s.recvq|
            && QueueMoves(s, s', s.sendq[ep], s'.sendq[ep]) && QueueMoves(s, s', s.recvq[ep], s'.recvq[ep])
  {
    hide Exclusive, LogOk, Counted, Without, Phased;
    assert IsQueue(s.sendq[ep], SendersAt(s, ep)) && IsQueue(s.recvq[ep], ReceiversAt(s, ep));
  }

  lemma StepKeepsOrder(s: State, a: Action)
    requires Inv(s) && Enabled(s, a) && Ordered(s)
    ensures Ordered(Next(s, a))
  {
    hide Next, NewestFirst, QueueMoves, Exclusive, LogOk, Counted, Since;
    var s' := Next(s, a);
    StepKeeps(s, a);
    QueueCount(s, a);
    forall ep: nat | ep < |s.sendq| ensures NewestFirst(s', s'.sendq[ep]) && NewestFirst(s', s'.recvq[ep]) {
      StepMovesQueues(s, a, ep);
      QueuedAreOld(s, ep);
      MovesKeepOrder(s, s', s.sendq[ep], s'.sendq[ep]);
      MovesKeepOrder(s, s', s.recvq[ep], s'.recvq[ep]);
    }
  }

  lemma QueueCount(s: State, a: Action)
    requires Inv(s) && Enabled(s, a)
    ensures |Next(s, a).sendq| == |s.sendq| == |Next(s, a).recvq|
  {
    hide Queued, Exclusive, LogOk, Counted, Without;
    match a
    case DoSend(t, e, _, _, _) => if s.recvq[e] != [] { RecvHead(s, e); }
    case DoReceive(t, e, _) => if s.sendq[e] != [] { SendHead(s, e); }
    case Expire(t) => assert PhaseOk(s, t);
    case _ =>
  }

  lemma QueuedAreOld(s: State, ep: nat)
    requires Inv(s) && ep < |s.sendq|
    ensures Distinct(s.sendq[ep]) && Distinct(s.recvq[ep])
    ensures forall u :: u in s.sendq[ep] || u in s.recvq[ep] ==> Since(s, u) < |s.ops|
  {
    hide Exclusive, LogOk, Counted;
    assert IsQueue(s.sendq[ep], SendersAt(s, ep)) && IsQueue(s.recvq[ep], ReceiversAt(s, ep));
  }

  lemma {:induction false} RunIsOrdered(s: State, actions: seq<Action>)
    requires Inv(s) && Ordered(s)
    ensures Ordered(Run(s, actions))
    decreases |actions|
  {
    hide Next, Inv, Enabled, Ordered;
    if actions != [] {
      if Enabled(s, actions[0]) {
        StepKeeps(s, actions[0]);
        StepKeepsOrder(s, actions[0]);
        RunIsOrdered(Next(s, actions[0]), actions[1..]);
      } else {
        RunIsOrdered(s, actions[1..]);
      }
    }
  }

  /** In every history a receive that finds waiting senders takes the one that came last, and a send that
      finds waiting receivers gives its message to the one that came last. */
  lemma NewestIsTaken(threads: nat, endpoints: nat, actions: seq<Action>, a: Action, u: nat)
    requires var s := History(threads, endpoints, actions);
             && Enabled(s, a) && u < |s.phases|
             && ((a.DoReceive? && InSendQueue(s, a.ep, u)) || (a.DoSend? && InRecvQueue(s, a.ep, u)))
    ensures var s := History(threads, endpoints, actions);
            var s' := Next(s, a);
            && |s'.log| == |s.log| + 1 && s'.log[..|s.log|] == s.log
            && s.phases[u].op <= if a.DoReceive? then s'.log[|s.log|].send else s'.log[|s.log|].recv
  {
    hide Run, LogOk, Counted;
    var s := History(threads, endpoints, actions);
    InitInv(threads, endpoints);
    assert Ordered(Init(threads, endpoints));
    RunIsOrdered(Init(threads, endpoints), actions);
    assert IsQueue(s.sendq[a.ep], SendersAt(s, a.ep)) && IsQueue(s.recvq[a.ep], ReceiversAt(s, a.ep));
    var q := if a.DoReceive? then s.sendq[a.ep] else s.recvq[a.ep];
    assert u in q && NewestFirst(s, q);
    var k :| 0 <= k < |q| && q[k] == u;
    if a.DoReceive? {
      SendHead(s, a.ep);
    } else {
      RecvHead(s, a.ep);
    }
    assert Since(s, q[0]) >= Since(s, q[k]);
  }

  // ---------------------------------------------------------------- the message a thread offers

  /** A thread offers its message from the beginning of a send until it was taken, and that of a call until
      the answer; it offers nothing while it receives or does nothing here. */
  ghost predicate Offers(s: State, t: nat) {
    t < |s.phases| && t < |s.request| ==>
      match s.phases[t]
      case Idle => s.request[t] == None
      case Receiving(_, _) => s.request[t] == None
      case Sending(op, _) => op < |s.ops| && s.ops[op].Send? && s.request[t] == Some(s.ops[op].msg)
      case Calling(op, _) => op < |s.ops| && s.ops[op].Send? && s.request[t] == Some(s.ops[op].msg)
      case Leaving(_, _) => true
  }

  lemma StepKeepsOffer(s: State, a: Action, t: nat)
    requires Inv(s) && Enabled(s, a) && Offers(s, t)
    ensures Offers(Next(s, a), t)
  {
    hide Queued, Exclusive, LogOk, Counted;
    if t < |s.phases| {
      assert PhaseOk(s, t);
    }
    match a
    case DoSend(u, ep, _, _, _) => if s.recvq[ep] != [] { RecvHead(s, ep); }
    case DoReceive(u, ep, _) => if s.sendq[ep] != [] { SendHead(s, ep); }
    case Expire(u) => assert PhaseOk(s, u);
    case _ =>
  }

  lemma {:induction false} RunKeepsOffer(s: State, actions: seq<Action>, t: nat)
    requires Inv(s) && Offers(s, t)
    ensures Offers(Run(s, actions), t)
    decreases |actions|
  {
    hide Next, Inv, Enabled, Offers;
    if actions != [] {
      if Enabled(s, actions[0]) {
        StepKeeps(s, actions[0]);
        StepKeepsOffer(s, actions[0], t);
        RunKeepsOffer(Next(s, actions[0]), actions[1..], t);
      } else {
        RunKeepsOffer(s, actions[1..], t);
      }
    }
  }

  lemma HistoryOffers(threads: nat, endpoints: nat, actions: seq<Action>, t: nat)
    ensures Offers(History(threads, endpoints, actions), t)
  {
    hide Inv, Run;
    InitInv(threads, endpoints);
    assert Offers(Init(threads, endpoints), t);
    RunKeepsOffer(Init(threads, endpoints), actions, t);
  }
}
