/**
  What holds over every history of endpoint operations: the state after any sequence of steps, and
  what the results that threads got say about their messages.
  */
module EndpointHistory {
  import opened Endpoint
  import opened Lists
  import opened Wrappers

  function Init(threads: nat, endpoints: nat): State {
    State(seq(threads, _ => Idle), seq(threads, _ => None), seq(threads, _ => None),
          seq(endpoints, _ => []), seq(endpoints, _ => []), [], map[], [], [], {})
  }

  lemma InitInv(threads: nat, endpoints: nat)
    ensures Inv(Init(threads, endpoints))
  {
  }

  /** The state after the actions, in order; an action that is not enabled is passed over. */
  ghost function Run(s: State, actions: seq<Action>): (s': State)
    requires Inv(s)
    ensures Inv(s')
    decreases |actions|
  {
    if actions == [] then s
    else if Enabled(s, actions[0]) then
      StepKeeps(s, actions[0]);
      Run(Next(s, actions[0]), actions[1..])
    else Run(s, actions[1..])
  }

  ghost function History(threads: nat, endpoints: nat, actions: seq<Action>): (s: State)
    ensures Inv(s)
  {
    InitInv(threads, endpoints);
    Run(Init(threads, endpoints), actions)
  }

  /** No endpoint ever has waiting senders and waiting receivers at the same time. */
  lemma NeverBothQueues(threads: nat, endpoints: nat, actions: seq<Action>, ep: nat)
    ensures var s := History(threads, endpoints, actions);
            ep < |s.sendq| ==> ep < |s.recvq| && (s.sendq[ep] == [] || s.recvq[ep] == [])
  {
    assert Exclusive(History(threads, endpoints, actions));
  }

  ghost predicate InSomeSendQueue(s: State, t: nat) { exists ep: nat :: ep < |s.sendq| && t in s.sendq[ep] }

  ghost predicate InSomeRecvQueue(s: State, t: nat) { exists ep: nat :: ep < |s.recvq| && t in s.recvq[ep] }

  predicate Waiting(s: State, t: nat) {
    t < |s.phases| && (s.phases[t].Sending? || s.phases[t].Receiving? || s.phases[t].Calling?)
  }

  /** A waiting thread is in exactly one of a send queue, a receive queue, or the state of awaiting a
      reply; any other thread is in none; and it is in one endpoint's queue only, once. */
  lemma ExactlyOneWait(s: State, t: nat)
    requires Inv(s) && t < |s.phases|
    ensures InSomeSendQueue(s, t) <==> s.phases[t].Sending?
    ensures InSomeRecvQueue(s, t) <==> s.phases[t].Receiving?
    ensures Waiting(s, t) <==> InSomeSendQueue(s, t) || InSomeRecvQueue(s, t) || s.phases[t].Calling?
    ensures forall e: nat, f: nat :: e < |s.sendq| && f < |s.sendq| && t in s.sendq[e] && t in s.sendq[f] ==> e == f
    ensures forall e: nat, f: nat :: e < |s.recvq| && f < |s.recvq| && t in s.recvq[e] && t in s.recvq[f] ==> e == f
    ensures forall e: nat :: e < |s.sendq| ==> Distinct(s.sendq[e]) && Distinct(s.recvq[e])
  {
    assert PhaseOk(s, t);
    forall e: nat | e < |s.sendq|
      ensures t in s.sendq[e] <==> InSendQueue(s, e, t)
      ensures t in s.recvq[e] <==> InRecvQueue(s, e, t)
    {
      assert IsQueue(s.sendq[e], SendersAt(s, e)) && IsQueue(s.recvq[e], ReceiversAt(s, e));
    }
    if s.phases[t].Sending? {
      assert t in s.sendq[s.ops[s.phases[t].op].ep];
    } else if s.phases[t].Receiving? {
      assert t in s.recvq[s.ops[s.phases[t].op].ep];
    }
  }

  /** A one-way send that returned success was got by exactly one receive. One that reported a timeout
      was got by none, unless a receive took it after its timer had fired. */
  lemma OneWayLaw(s: State, op: nat)
    requires Inv(s) && op in s.results && op < |s.ops| && s.ops[op].Send? && s.ops[op].oneWay
    ensures s.results[op] == Done ==> Sends(s.log, op) == 1
    ensures (s.results[op] == Done <==> Sends(s.log, op) == 1) <==> op !in s.late
    ensures !s.ops[op].timed ==> s.results[op] == Done && Sends(s.log, op) == 1
  {
    assert OpOk(s, op);
  }

  /** A call that returned success was got by exactly one receive and answered exactly once; one that
      timed out was not answered. */
  lemma CallLaw(s: State, op: nat)
    requires Inv(s) && op in s.results && op < |s.ops| && s.ops[op].Send? && !s.ops[op].oneWay
    ensures s.results[op] == Done <==> Answers(s.replies, op) == 1
    ensures s.results[op] == Done ==> Sends(s.log, op) == 1
    ensures Answers(s.replies, op) <= 1 && Sends(s.log, op) <= 1
  {
    assert OpOk(s, op);
  }

  /** A receive that returned success got exactly one message; one that timed out got none, unless a
      send chose it after its timer had fired. */
  lemma ReceiveLaw(s: State, op: nat)
    requires Inv(s) && op in s.results && op < |s.ops| && s.ops[op].Receive?
    ensures s.results[op] == Done ==> exists i :: 0 <= i < |s.log| && s.log[i].recv == op
                                                  && DeliveryOk(s, s.log[i])
    ensures Gets(s.log, op) <= 1
    ensures (s.results[op] == Done <==> Gets(s.log, op) == 1) <==> op !in s.late
    ensures !s.ops[op].timed ==> s.results[op] == Done && Gets(s.log, op) == 1
  {
    assert OpOk(s, op);
    if Gets(s.log, op) == 1 {
      var i := GotFrom(s.log, op);
      assert DeliveryOk(s, s.log[i]);
    }
  }

  lemma {:induction false} GotFrom(log: seq<Delivery>, op: nat) returns (i: nat)
    requires Gets(log, op) > 0
    ensures i < |log| && log[i].recv == op
  {
    i := |log| - 1;
    if log[i].recv != op {
      i := GotFrom(log[..|log| - 1], op);
    }
  }

  /** Whoever is handed over to, the message is the one of a send that has not returned. */
  lemma DeliveryIsLive(s: State, a: Action)
    requires Inv(s) && Enabled(s, a) && |Next(s, a).log| > |s.log|
    ensures
      var s' := Next(s, a);
      var d := s'.log[|s.log|];
      s'.log == s.log + [d] && DeliveryOk(s', d)
      && d.send !in s'.results && d.recv !in s'.results
      && (var sender := s'.ops[d.send].tid;
          sender < |s'.phases| && s'.phases[sender] != Idle && s'.phases[sender].op == d.send)
  {
    StepKeeps(s, a);
    FreshOp(s);
    match a
    case DoSend(t, ep, _, _, _) =>
      RecvHead(s, ep);
    case DoReceive(t, ep, _) =>
      SendHead(s, ep);
  }

  // ---------------------------------------------------------- the race with the timer

  /** A send whose timer has fired but that still waits in the queue of its endpoint. */
  function FiredSend(m: nat): State {
    State([Sending(0, true), Idle], [Some(m), None], [None, None], [[0]], [[]],
          [Send(0, 0, m, true, true)], map[], [], [], {})
  }

  lemma FiredSendIsReached(m: nat)
    ensures History(2, 1, [DoSend(0, 0, m, true, true), Fire(0)]) == FiredSend(m)
  {
    hide Phased, Queued, Exclusive, LogOk, Counted;
    InitInv(2, 1);
    var s0 := Init(2, 1);
    var a0, a1 := DoSend(0, 0, m, true, true), Fire(0);
    StepKeeps(s0, a0);
    var s1 := Next(s0, a0);
    assert s1.phases == [Sending(0, false), Idle] && s1.request == [Some(m), None] && s1.peer == [None, None];
    assert [0] + [] == [0] && s1.sendq == [[0]] && s1.recvq == [[]];
    assert s1 == FiredSend(m).(phases := [Sending(0, false), Idle]);
    StepKeeps(s1, a1);
    assert Next(s1, a1) == FiredSend(m);
    assert [a0, a1][1..] == [a1] && [a1][1..] == [];
    assert Run(s1, [a1]) == Run(Next(s1, a1), []);
  }

  lemma {:induction false} RunTwice(s: State, a: seq<Action>, b: seq<Action>)
    requires Inv(s)
    ensures Run(s, a + b) == Run(Run(s, a), b)
    decreases |a|
  {
    hide Inv, Next;
    if a == [] {
      assert a + b == b;
    } else {
      assert (a + b)[1..] == a[1..] + b && (a + b)[0] == a[0];
      if Enabled(s, a[0]) {
        StepKeeps(s, a[0]);
        RunTwice(Next(s, a[0]), a[1..], b);
      } else {
        RunTwice(s, a[1..], b);
      }
    }
  }

  /** The message was received and its send has reported a timeout. */
  ghost predicate ReportedLate(s: State, m: nat) {
    && |s.ops| == 2 && s.ops[0] == Send(0, 0, m, true, true)
    && s.results == map[0 := TimedOut] && s.log == [Delivery(0, 1, m)]
  }

  lemma ReceiveFromFired(m: nat)
    requires Inv(FiredSend(m))
    ensures ReportedLate(Run(FiredSend(m), [DoReceive(1, 0, false), Return(0)]), m)
  {
    hide Phased, Queued, Exclusive, LogOk, Counted;
    var s2 := FiredSend(m);
    var a2, a3 := DoReceive(1, 0, false), Return(0);
    StepKeeps(s2, a2);
    var s3 := Next(s2, a2);
    assert s3.log == [Delivery(0, 1, m)];
    assert s3.phases == [Leaving(0, TimedOut), Leaving(1, Done)];
    StepKeeps(s3, a3);
    assert [a2, a3][1..] == [a3] && [a3][1..] == [];
    assert Run(s3, [a3]) == Run(Next(s3, a3), []);
  }

  /** A history in which a one-way send of any message is received and still reports a timeout. */
  lemma LateSend(m: nat)
    ensures var s := History(2, 1, [DoSend(0, 0, m, true, true), Fire(0), DoReceive(1, 0, false), Return(0)]);
            ReportedLate(s, m) && Sends(s.log, 0) == 1
  {
    hide Inv, Run, Sends, FiredSend;
    var a, b := [DoSend(0, 0, m, true, true), Fire(0)], [DoReceive(1, 0, false), Return(0)];
    InitInv(2, 1);
    FiredSendIsReached(m);
    RunTwice(Init(2, 1), a, b);
    assert a + b == [DoSend(0, 0, m, true, true), Fire(0), DoReceive(1, 0, false), Return(0)];
    ReceiveFromFired(m);
    OneDelivery(Delivery(0, 1, m));
  }

  /** A receive whose timer has fired but that still waits in the queue of its endpoint. */
  function FiredReceive(): State {
    State([Receiving(0, true), Idle], [None, None], [None, None], [[]], [[0]],
          [Receive(0, 0, true)], map[], [], [], {})
  }

  lemma FiredReceiveIsReached()
    ensures History(2, 1, [DoReceive(0, 0, true), Fire(0)]) == FiredReceive()
  {
    hide Phased, Queued, Exclusive, LogOk, Counted;
    InitInv(2, 1);
    var s0 := Init(2, 1);
    var a0, a1 := DoReceive(0, 0, true), Fire(0);
    StepKeeps(s0, a0);
    var s1 := Next(s0, a0);
    assert s1.phases == [Receiving(0, false), Idle] && s1.request == [None, None] && s1.peer == [None, None];
    assert [0] + [] == [0] && s1.sendq == [[]] && s1.recvq == [[0]];
    assert s1 == FiredReceive().(phases := [Receiving(0, false), Idle]);
    StepKeeps(s1, a1);
    assert Next(s1, a1) == FiredReceive();
    assert [a0, a1][1..] == [a1] && [a1][1..] == [];
    assert Run(s1, [a1]) == Run(Next(s1, a1), []);
  }

  /** The message goes to the receive that has timed out, and is lost. */
  ghost predicate Lost(s: State, m: nat) {
    && |s.ops| == 2 && s.ops[0] == Receive(0, 0, true) && s.ops[1] == Send(1, 0, m, true, false)
    && s.results == map[0 := TimedOut, 1 := Done] && s.log == [Delivery(1, 0, m)]
  }

  lemma SendToFired(m: nat)
    requires Inv(FiredReceive())
    ensures Lost(Run(FiredReceive(), [DoSend(1, 0, m, true, false), Return(0), Return(1)]), m)
  {
    hide Phased, Queued, Exclusive, LogOk, Counted;
    var s2 := FiredReceive();
    var a2, a3, a4 := DoSend(1, 0, m, true, false), Return(0), Return(1);
    StepKeeps(s2, a2);
    var s3 := Next(s2, a2);
    assert s3.phases == [Leaving(0, TimedOut), Leaving(1, Done)];
    StepKeeps(s3, a3);
    var s4 := Next(s3, a3);
    assert s4.phases == [Idle, Leaving(1, Done)];
    StepKeeps(s4, a4);
    assert [a2, a3, a4][1..] == [a3, a4] && [a3, a4][1..] == [a4] && [a4][1..] == [];
    assert Run(s4, [a4]) == Run(Next(s4, a4), []);
    assert Run(s3, [a3, a4]) == Run(s4, [a4]);
  }

  /** A history in which a one-way send succeeds and the only receive that got its message reports a
      timeout. */
  lemma LateReceive(m: nat)
    ensures var s := History(2, 1,
              [DoReceive(0, 0, true), Fire(0), DoSend(1, 0, m, true, false), Return(0), Return(1)]);
            Lost(s, m) && Sends(s.log, 1) == 1 && Gets(s.log, 0) == 1
  {
    hide Inv, Run, Sends, Gets, FiredReceive;
    var a, b := [DoReceive(0, 0, true), Fire(0)], [DoSend(1, 0, m, true, false), Return(0), Return(1)];
    InitInv(2, 1);
    FiredReceiveIsReached();
    RunTwice(Init(2, 1), a, b);
    assert a + b == [DoReceive(0, 0, true), Fire(0), DoSend(1, 0, m, true, false), Return(0), Return(1)];
    SendToFired(m);
    OneDelivery(Delivery(1, 0, m));
  }

  lemma OneDelivery(d: Delivery)
    ensures Sends([d], d.send) == 1 && Gets([d], d.recv) == 1
  {
    SendsAppend([], d, d.send);
    SendsAppend([], d, d.recv);
    assert [] + [d] == [d];
  }

  // ------------------------------------------------- what a caller can rely on, by its timeout

  /** A one-way send with this kind of timeout returned 0 iff exactly one receive got it. */
  ghost predicate OneWayHolds(s: State, op: nat, timed: bool) {
    op in s.results && op < |s.ops| && s.ops[op].Send? && s.ops[op].oneWay && s.ops[op].timed == timed ==>
      (s.results[op] == Done <==> Sends(s.log, op) == 1)
  }

  ghost predicate OneWayAlwaysHolds(timed: bool) {
    forall threads: nat, endpoints: nat, actions: seq<Action>, op: nat ::
      OneWayHolds(History(threads, endpoints, actions), op, timed)
  }

  /** In all histories that is so iff the send has no timeout. */
  lemma OneWayIff(timed: bool)
    ensures OneWayAlwaysHolds(timed) <==> !timed
  {
    hide Inv, History, Sends;
    if timed {
      LateSend(7);
      assert !OneWayHolds(History(2, 1, [DoSend(0, 0, 7, true, true), Fire(0), DoReceive(1, 0, false), Return(0)]),
               0, true);
    } else {
      forall threads: nat, endpoints: nat, actions: seq<Action>, op: nat
        ensures OneWayHolds(History(threads, endpoints, actions), op, false)
      {
        var s := History(threads, endpoints, actions);
        if op in s.results && op < |s.ops| && s.ops[op].Send? && s.ops[op].oneWay && !s.ops[op].timed {
          OneWayLaw(s, op);
        }
      }
    }
  }

  /** A receive with this kind of timeout returned 0 iff it got exactly one message. */
  ghost predicate ReceiveHolds(s: State, op: nat, timed: bool) {
    op in s.results && op < |s.ops| && s.ops[op].Receive? && s.ops[op].timed == timed ==>
      (s.results[op] == Done <==> Gets(s.log, op) == 1)
  }

  ghost predicate ReceiveAlwaysHolds(timed: bool) {
    forall threads: nat, endpoints: nat, actions: seq<Action>, op: nat ::
      ReceiveHolds(History(threads, endpoints, actions), op, timed)
  }

  /** In all histories that is so iff the receive has no timeout. */
  lemma ReceiveIff(timed: bool)
    ensures ReceiveAlwaysHolds(timed) <==> !timed
  {
    hide Inv, History, Gets;
    if timed {
      LateReceive(7);
      assert !ReceiveHolds(History(2, 1,
               [DoReceive(0, 0, true), Fire(0), DoSend(1, 0, 7, true, false), Return(0), Return(1)]), 0, true);
    } else {
      forall threads: nat, endpoints: nat, actions: seq<Action>, op: nat
        ensures ReceiveHolds(History(threads, endpoints, actions), op, false)
      {
        var s := History(threads, endpoints, actions);
        if op in s.results && op < |s.ops| && s.ops[op].Receive? && !s.ops[op].timed {
          ReceiveLaw(s, op);
        }
      }
    }
  }

  /** A delivery from a send that returned 0 to a receive with this kind of timeout: the receive, once it
      has returned, returned 0 too. */
  ghost predicate HandoverHolds(s: State, i: nat, timed: bool) {
    i < |s.log| && s.log[i].send in s.results && s.results[s.log[i].send] == Done && s.log[i].recv in s.results
    && s.log[i].recv < |s.ops| && s.ops[s.log[i].recv].timed == timed ==>
      s.results[s.log[i].recv] == Done
  }

  ghost predicate HandoverAlwaysHolds(timed: bool) {
    forall threads: nat, endpoints: nat, actions: seq<Action>, i: nat ::
      HandoverHolds(History(threads, endpoints, actions), i, timed)
  }

  /** In all histories no message of a successful send is lost iff the receive has no timeout. */
  lemma HandoverIff(timed: bool)
    ensures HandoverAlwaysHolds(timed) <==> !timed
  {
    hide Inv, History, Gets;
    if timed {
      LateReceive(7);
      assert !HandoverHolds(History(2, 1,
               [DoReceive(0, 0, true), Fire(0), DoSend(1, 0, 7, true, false), Return(0), Return(1)]), 0, true);
    } else {
      forall threads: nat, endpoints: nat, actions: seq<Action>, i: nat
        ensures HandoverHolds(History(threads, endpoints, actions), i, false)
      {
        var s := History(threads, endpoints, actions);
        if i < |s.log| && s.log[i].recv in s.results && s.log[i].recv < |s.ops| && !s.ops[s.log[i].recv].timed {
          DeliveryAt(s, i);
          ReceiveLaw(s, s.log[i].recv);
        }
      }
    }
  }

  lemma DeliveryAt(s: State, i: nat)
    requires Inv(s) && i < |s.log|
    ensures DeliveryOk(s, s.log[i])
  {
  }

  /** The receive that got a successful send, and how it ended. */
  lemma SendReachesReceiver(s: State, op: nat) returns (i: nat)
    requires Inv(s) && op in s.results && op < |s.ops| && s.ops[op].Send? && s.results[op] == Done
    ensures i < |s.log| && s.log[i].send == op && DeliveryOk(s, s.log[i])
    ensures forall j: nat :: j < |s.log| && s.log[j].send == op ==> j == i
    ensures var r := s.log[i].recv;
            (r in s.results ==> (s.results[r] == Done <==> r !in s.late))
            && (!s.ops[r].timed ==> r !in s.late)
  {
    assert OpOk(s, op);
    i := SentAs(s.log, op);
    assert DeliveryOk(s, s.log[i]);
    forall j: nat | j < |s.log| && s.log[j].send == op
      ensures j == i
    {
      SentOnce(s.log, op, i, j);
    }
    var r := s.log[i].recv;
    assert OpOk(s, r);
    GotSomething(s.log, i);
  }

  lemma {:induction false} SentAs(log: seq<Delivery>, op: nat) returns (i: nat)
    requires Sends(log, op) > 0
    ensures i < |log| && log[i].send == op
  {
    i := |log| - 1;
    if log[i].send != op {
      i := SentAs(log[..|log| - 1], op);
    }
  }

  lemma {:induction false} SentOnce(log: seq<Delivery>, op: nat, i: nat, j: nat)
    requires Sends(log, op) <= 1 && i < |log| && j < |log| && log[i].send == log[j].send == op
    ensures i == j
  {
    var n := |log| - 1;
    if i < n && j < n {
      SentOnce(log[..n], op, i, j);
    } else if i < n {
      SentSomething(log[..n], i);
    } else if j < n {
      SentSomething(log[..n], j);
    }
  }

  lemma {:induction false} SentSomething(log: seq<Delivery>, i: nat)
    requires i < |log|
    ensures Sends(log, log[i].send) > 0
  {
    if i < |log| - 1 {
      SentSomething(log[..|log| - 1], i);
    }
  }

  lemma {:induction false} GotSomething(log: seq<Delivery>, i: nat)
    requires i < |log|
    ensures Gets(log, log[i].recv) > 0
  {
    if i < |log| - 1 {
      GotSomething(log[..|log| - 1], i);
    }
  }
}
