/**
  Synchronous message passing over endpoints.

  One step is one critical section together with the blocking or waking it leads to. A timer may
  fire for a blocked thread at any moment; the thread then leaves its queue in a later step of its
  own, so another thread can still find it there in between.

  Every send, call and receive is numbered. The history (`ops`, `results`, `log`, `replies`) records
  what each one asked for, what it returned, which receive got which send, and which call was
  answered.
  */
module Endpoint {
  import opened Lists
  import opened Wrappers

  datatype Result = Done | TimedOut

  datatype Op =
    | Send(tid: nat, ep: nat, msg: nat, oneWay: bool, timed: bool)
    | Receive(tid: nat, ep: nat, timed: bool)

  /** Where a thread is. `fired` says that its timer has run out. A thread that is `Leaving` was
      woken and will return `res`. */
  datatype Phase =
    | Idle
    | Sending(op: nat, fired: bool)
    | Calling(op: nat, fired: bool)
    | Receiving(op: nat, fired: bool)
    | Leaving(op: nat, res: Result)

  datatype Delivery = Delivery(send: nat, recv: nat, msg: nat)

  datatype State = State(
    phases: seq<Phase>, request: seq<Option<nat>>, peer: seq<Option<nat>>,
    sendq: seq<seq<nat>>, recvq: seq<seq<nat>>,
    ops: seq<Op>, results: map<nat, Result>, log: seq<Delivery>, replies: seq<nat>, late: set<nat>)

  datatype Action =
    | DoSend(t: nat, ep: nat, msg: nat, oneWay: bool, timed: bool)
    | DoReceive(t: nat, ep: nat, timed: bool)
    | DoReplyTo(t: nat, caller: nat)
    | DoReply(t: nat)
    | Fire(t: nat)
    | Expire(t: nat)
    | Return(t: nat)

  // ------------------------------------------------------------------ the steps

  predicate Running(s: State, t: nat) {
    t < |s.phases| && s.phases[t] == Idle
  }

  /** A caller whose request was taken and that is still asleep. */
  predicate AwaitsReply(s: State, t: nat) {
    t < |s.phases| && s.phases[t].Calling? && !s.phases[t].fired
  }

  predicate WellFormed(s: State) {
    |s.request| == |s.peer| == |s.phases| && |s.recvq| == |s.sendq|
  }

  predicate Enabled(s: State, a: Action) {
    match a
    case DoSend(t, ep, _, _, _) => Running(s, t) && ep < |s.sendq|
    case DoReceive(t, ep, _) => Running(s, t) && ep < |s.sendq|
    case DoReplyTo(t, caller) => Running(s, t) && AwaitsReply(s, caller)
    case DoReply(t) => Running(s, t) && t < |s.peer| && s.peer[t].Some? && AwaitsReply(s, s.peer[t].value)
    case Fire(t) =>
      t < |s.phases| && (s.phases[t].Sending? || s.phases[t].Calling? || s.phases[t].Receiving?)
      && !s.phases[t].fired && s.phases[t].op < |s.ops| && s.ops[s.phases[t].op].timed
    case Expire(t) =>
      t < |s.phases| && (s.phases[t].Sending? || s.phases[t].Calling? || s.phases[t].Receiving?) && s.phases[t].fired
    case Return(t) => t < |s.phases| && s.phases[t].Leaving?
  }

  /** The walk along the queue by which a thread takes itself out. */
  method TakeOut(q: seq<nat>, t: nat) returns (r: seq<nat>)
    ensures r == Without(q, t)
  {
    var i := 0;
    while i < |q|
      invariant i <= |q| && t !in q[..i]
      invariant Without(q, t) == q[..i] + Without(q[i..], t)
    {
      if q[i] == t {
        return q[..i] + q[i + 1..];
      }
      assert q[..i] + ([q[i]] + Without(q[i + 1..], t)) == q[..i + 1] + Without(q[i + 1..], t);
      i := i + 1;
    }
    return q;
  }

  function Outcome(fired: bool): Result {
    if fired then TimedOut else Done
  }

  function Late(s: State, op: nat, fired: bool): set<nat> {
    if fired then s.late + {op} else s.late
  }

  function SendStep(s: State, t: nat, ep: nat, msg: nat, oneWay: bool, timed: bool): State
    requires Inv(s) && Running(s, t) && ep < |s.sendq|
  {
    var op := |s.ops|;
    var ops := s.ops + [Send(t, ep, msg, oneWay, timed)];
    if s.recvq[ep] != [] then
      RecvHead(s, ep);
      var r := s.recvq[ep][0];
      var ph := s.phases[r];
      s.(phases := s.phases[r := Leaving(ph.op, Outcome(ph.fired))]
                           [t := if oneWay then Leaving(op, Done) else Calling(op, false)],
         request := if oneWay then s.request else s.request[t := Some(msg)],
         peer := s.peer[r := Some(t)],
         recvq := s.recvq[ep := s.recvq[ep][1..]],
         ops := ops, log := s.log + [Delivery(op, ph.op, msg)], late := Late(s, ph.op, ph.fired))
    else
      s.(phases := s.phases[t := Sending(op, false)], request := s.request[t := Some(msg)],
         sendq := s.sendq[ep := [t] + s.sendq[ep]], ops := ops)
  }

  function ReceiveStep(s: State, t: nat, ep: nat, timed: bool): State
    requires Inv(s) && Running(s, t) && ep < |s.sendq|
  {
    var op := |s.ops|;
    var ops := s.ops + [Receive(t, ep, timed)];
    if s.sendq[ep] != [] then
      SendHead(s, ep);
      var r := s.sendq[ep][0];
      var ph := s.phases[r];
      s.(phases := s.phases[r := if s.ops[ph.op].oneWay || ph.fired then Leaving(ph.op, Outcome(ph.fired))
                                 else Calling(ph.op, false)]
                           [t := Leaving(op, Done)],
         request := if s.ops[ph.op].oneWay then s.request[r := None] else s.request,
         peer := s.peer[t := Some(r)],
         sendq := s.sendq[ep := s.sendq[ep][1..]],
         ops := ops, log := s.log + [Delivery(ph.op, op, s.request[r].value)], late := Late(s, ph.op, ph.fired))
    else
      s.(phases := s.phases[t := Receiving(op, false)], recvq := s.recvq[ep := [t] + s.recvq[ep]], ops := ops)
  }

  function ReplyStep(s: State, caller: nat): State
    requires WellFormed(s) && AwaitsReply(s, caller)
  {
    var op := s.phases[caller].op;
    s.(phases := s.phases[caller := Leaving(op, Done)], request := s.request[caller := None],
        replies := s.replies + [op])
  }

  function FireStep(s: State, t: nat): State
    requires Enabled(s, Fire(t))
  {
    s.(phases := s.phases[t := match s.phases[t]
                               case Sending(op, _) => Sending(op, true)
                               case Calling(op, _) => Calling(op, true)
                               case Receiving(op, _) => Receiving(op, true)
                               case other => other])
  }

  /** A thread whose timer fired takes itself out of its queue and reports the timeout. */
  function ExpireStep(s: State, t: nat): State
    requires Inv(s) && Enabled(s, Expire(t))
  {
    var ph := s.phases[t];
    assert PhaseOk(s, t);
    var ep := s.ops[ph.op].ep;
    s.(phases := s.phases[t := Idle],
       request := if ph.Receiving? then s.request else s.request[t := None],
       sendq := if ph.Sending? then s.sendq[ep := Without(s.sendq[ep], t)] else s.sendq,
       recvq := if ph.Receiving? then s.recvq[ep := Without(s.recvq[ep], t)] else s.recvq,
       results := s.results[ph.op := TimedOut])
  }

  function ReturnStep(s: State, t: nat): State
    requires WellFormed(s) && Enabled(s, Return(t))
  {
    var ph := s.phases[t];
    s.(phases := s.phases[t := Idle], results := s.results[ph.op := ph.res],
       request := s.request[t := None])
  }

  function Next(s: State, a: Action): State
    requires Inv(s) && Enabled(s, a)
  {
    match a
    case DoSend(t, ep, msg, oneWay, timed) => SendStep(s, t, ep, msg, oneWay, timed)
    case DoReceive(t, ep, timed) => ReceiveStep(s, t, ep, timed)
    case DoReplyTo(_, caller) => ReplyStep(s, caller)
    case DoReply(t) => ReplyStep(s, s.peer[t].value).(peer := s.peer[t := None])
    case Fire(t) => FireStep(s, t)
    case Expire(t) => ExpireStep(s, t)
    case Return(t) => ReturnStep(s, t)
  }

  // ------------------------------------------------------------------ the invariant

  /** How many receives got send `op`. */
  function Sends(log: seq<Delivery>, op: nat): nat {
    if log == [] then 0 else Sends(log[..|log| - 1], op) + if log[|log| - 1].send == op then 1 else 0
  }

  /** How many sends receive `op` got. */
  function Gets(log: seq<Delivery>, op: nat): nat {
    if log == [] then 0 else Gets(log[..|log| - 1], op) + if log[|log| - 1].recv == op then 1 else 0
  }

  function Answers(replies: seq<nat>, op: nat): nat {
    if replies == [] then 0 else Answers(replies[..|replies| - 1], op) + if replies[|replies| - 1] == op then 1 else 0
  }

  /** A thread inside an operation works on an operation of its own that has not returned. */
  ghost predicate PhaseOk(s: State, t: nat)
    requires t < |s.phases|
  {
    var ph := s.phases[t];
    ph != Idle ==>
      && ph.op < |s.ops| && s.ops[ph.op].tid == t && ph.op !in s.results && s.ops[ph.op].ep < |s.sendq|
      && (ph.Sending? ==> s.ops[ph.op].Send? && t < |s.request| && s.request[t] == Some(s.ops[ph.op].msg))
      && (ph.Calling? ==> s.ops[ph.op].Send? && !s.ops[ph.op].oneWay)
      && (ph.Receiving? ==> s.ops[ph.op].Receive?)
      && (!ph.Leaving? && ph.fired ==> s.ops[ph.op].timed)
  }

  ghost predicate Phased(s: State) {
    forall t: nat :: t < |s.phases| ==> PhaseOk(s, t)
  }

  ghost predicate InSendQueue(s: State, ep: nat, t: nat) {
    t < |s.phases| && s.phases[t].Sending? && s.phases[t].op < |s.ops| && s.ops[s.phases[t].op].ep == ep
  }

  ghost predicate InRecvQueue(s: State, ep: nat, t: nat) {
    t < |s.phases| && s.phases[t].Receiving? && s.phases[t].op < |s.ops| && s.ops[s.phases[t].op].ep == ep
  }

  ghost function SendersAt(s: State, ep: nat): set<nat> {
    set t | 0 <= t < |s.phases| && InSendQueue(s, ep, t)
  }

  ghost function ReceiversAt(s: State, ep: nat): set<nat> {
    set t | 0 <= t < |s.phases| && InRecvQueue(s, ep, t)
  }

  /** A queue holds exactly the threads that wait there, each once. */
  ghost predicate IsQueue(q: seq<nat>, waiting: set<nat>) {
    Distinct(q) && forall t :: t in q <==> t in waiting
  }

  ghost predicate Queued(s: State)
    requires WellFormed(s)
  {
    && (forall ep: nat :: ep < |s.sendq| ==> IsQueue(s.sendq[ep], SendersAt(s, ep)))
    && (forall ep: nat :: ep < |s.recvq| ==> IsQueue(s.recvq[ep], ReceiversAt(s, ep)))
  }

  ghost predicate Exclusive(s: State)
    requires WellFormed(s)
  {
    forall ep: nat :: ep < |s.sendq| ==> s.sendq[ep] == [] || s.recvq[ep] == []
  }

  ghost predicate LogOk(s: State) {
    && (forall i :: 0 <= i < |s.log| ==> DeliveryOk(s, s.log[i]))
    && (forall op <- s.late :: op < |s.ops| && s.ops[op].timed)
    && (forall op <- s.results :: op < |s.ops| && (s.results[op] == TimedOut ==> s.ops[op].timed))
    && (forall i :: 0 <= i < |s.replies| ==> s.replies[i] < |s.ops|)
  }

  /** A delivery carries the message of its send, between operations on the same endpoint. */
  ghost predicate DeliveryOk(s: State, d: Delivery) {
    && d.send < |s.ops| && s.ops[d.send].Send? && d.msg == s.ops[d.send].msg
    && d.recv < |s.ops| && s.ops[d.recv].Receive? && s.ops[d.recv].ep == s.ops[d.send].ep
  }

  /** What has happened to send `op`, by what it returned or by where its thread is. */
  ghost predicate SendOk(s: State, op: nat)
    requires op < |s.ops| && s.ops[op].Send? && s.ops[op].tid < |s.phases|
  {
    var taken, answered := Sends(s.log, op), Answers(s.replies, op);
    var oneWay := s.ops[op].oneWay;
    if op in s.results then
      match s.results[op] {
        case Done => taken == 1 && (if oneWay then op !in s.late else answered == 1)
        case TimedOut =>
          answered == 0 && taken <= 1 && (op in s.late ==> taken == 1) && (oneWay && op !in s.late ==> taken == 0)
      }
    else
      match s.phases[s.ops[op].tid] {
        case Sending(_, _) => taken == 0 && answered == 0 && op !in s.late
        case Calling(_, _) => taken == 1 && answered == 0 && op !in s.late
        case Leaving(_, Done) => taken == 1 && op !in s.late && (!oneWay ==> answered == 1)
        case Leaving(_, TimedOut) => taken == 1 && op in s.late && answered == 0
        case _ => false
      }
  }

  ghost predicate ReceiveOk(s: State, op: nat)
    requires op < |s.ops| && s.ops[op].tid < |s.phases|
  {
    var got := Gets(s.log, op);
    if op in s.results then
      got == (if s.results[op] == Done || op in s.late then 1 else 0) && (s.results[op] == Done ==> op !in s.late)
    else
      match s.phases[s.ops[op].tid] {
        case Receiving(_, _) => got == 0 && op !in s.late
        case Leaving(_, res) => got == 1 && (res == Done <==> op !in s.late)
        case _ => false
      }
  }

  ghost predicate OpOk(s: State, op: nat)
    requires op < |s.ops|
  {
    var t := s.ops[op].tid;
    && t < |s.phases|
    && (op in s.results || (s.phases[t] != Idle && s.phases[t].op == op))
    && (if s.ops[op].Send? then SendOk(s, op) else ReceiveOk(s, op))
  }

  ghost predicate Counted(s: State) {
    forall op: nat :: op < |s.ops| ==> OpOk(s, op)
  }

  ghost predicate Inv(s: State) {
    WellFormed(s) && Phased(s) && Queued(s) && Exclusive(s) && LogOk(s) && Counted(s)
  }

  lemma RecvHead(s: State, ep: nat)
    requires Inv(s) && ep < |s.recvq| && s.recvq[ep] != []
    ensures InRecvQueue(s, ep, s.recvq[ep][0]) && PhaseOk(s, s.recvq[ep][0]) && s.recvq[ep][0] < |s.phases|
    ensures var op := s.phases[s.recvq[ep][0]].op;
            s.ops[op].Receive? && s.ops[op].tid == s.recvq[ep][0] && op !in s.results
  {
    assert IsQueue(s.recvq[ep], ReceiversAt(s, ep));
    assert s.recvq[ep][0] in s.recvq[ep];
  }

  lemma SendHead(s: State, ep: nat)
    requires Inv(s) && ep < |s.sendq| && s.sendq[ep] != []
    ensures InSendQueue(s, ep, s.sendq[ep][0]) && PhaseOk(s, s.sendq[ep][0]) && s.sendq[ep][0] < |s.phases|
    ensures var r := s.sendq[ep][0];
            var op := s.phases[r].op;
            s.ops[op].Send? && s.ops[op].tid == r && op !in s.results && s.request[r] == Some(s.ops[op].msg)
  {
    assert IsQueue(s.sendq[ep], SendersAt(s, ep));
    assert s.sendq[ep][0] in s.sendq[ep];
  }

  lemma Pushed(q: seq<nat>, waiting: set<nat>, t: nat)
    requires IsQueue(q, waiting) && t !in waiting
    ensures IsQueue([t] + q, waiting + {t})
  {
    assert forall x :: x in [t] + q <==> x == t || x in q;
  }

  lemma Popped(q: seq<nat>, waiting: set<nat>)
    requires IsQueue(q, waiting) && q != []
    ensures IsQueue(q[1..], waiting - {q[0]})
  {
    assert q == [q[0]] + q[1..];
    assert forall x :: x in q <==> x == q[0] || x in q[1..];
  }

  lemma {:induction false} TakenOut(q: seq<nat>, waiting: set<nat>, t: nat)
    requires IsQueue(q, waiting)
    ensures IsQueue(Without(q, t), waiting - {t})
    decreases |q|
  {
    if q != [] {
      Popped(q, waiting);
      if q[0] != t {
        TakenOut(q[1..], waiting - {q[0]}, t);
        Pushed(Without(q[1..], t), waiting - {q[0]} - {t}, q[0]);
        assert q[0] in q;
        assert waiting - {q[0]} - {t} + {q[0]} == waiting - {t};
      }
    }
  }

  // ------------------------------------------------------------- counting the history

  lemma SendsAppend(log: seq<Delivery>, d: Delivery, op: nat)
    ensures Sends(log + [d], op) == Sends(log, op) + if d.send == op then 1 else 0
    ensures Gets(log + [d], op) == Gets(log, op) + if d.recv == op then 1 else 0
  {
    assert (log + [d])[..|log|] == log;
  }

  lemma AnswersAppend(replies: seq<nat>, r: nat, op: nat)
    ensures Answers(replies + [r], op) == Answers(replies, op) + if r == op then 1 else 0
  {
    assert (replies + [r])[..|replies|] == replies;
  }

  lemma {:induction false} FreshInLog(log: seq<Delivery>, op: nat)
    requires forall i :: 0 <= i < |log| ==> log[i].send < op && log[i].recv < op
    ensures Sends(log, op) == 0 && Gets(log, op) == 0
  {
    if log != [] {
      FreshInLog(log[..|log| - 1], op);
    }
  }

  lemma {:induction false} FreshInReplies(replies: seq<nat>, op: nat)
    requires forall i :: 0 <= i < |replies| ==> replies[i] < op
    ensures Answers(replies, op) == 0
  {
    if replies != [] {
      FreshInReplies(replies[..|replies| - 1], op);
    }
  }

  /** Nothing has happened yet to an operation that is about to start. */
  lemma FreshOp(s: State)
    requires Inv(s)
    ensures var op := |s.ops|; Sends(s.log, op) == 0 && Gets(s.log, op) == 0 && Answers(s.replies, op) == 0
                               && op !in s.late && op !in s.results
  {
    forall i | 0 <= i < |s.log|
      ensures s.log[i].send < |s.ops| && s.log[i].recv < |s.ops|
    {
      assert DeliveryOk(s, s.log[i]);
    }
    FreshInLog(s.log, |s.ops|);
    FreshInReplies(s.replies, |s.ops|);
  }

  /** An operation keeps its standing when nothing it depends on changes. */
  lemma OpStays(s: State, s': State, op: nat)
    requires op < |s.ops| && OpOk(s, op) && op < |s'.ops| && s'.ops[op] == s.ops[op] && |s'.phases| == |s.phases|
    requires op in s.results || s'.phases[s.ops[op].tid] == s.phases[s.ops[op].tid]
    requires (op in s'.results <==> op in s.results) && (op in s.results ==> s'.results[op] == s.results[op])
    requires op in s'.late <==> op in s.late
    requires Sends(s'.log, op) == Sends(s.log, op) && Gets(s'.log, op) == Gets(s.log, op)
    requires Answers(s'.replies, op) == Answers(s.replies, op)
    ensures OpOk(s', op)
  {
  }

  // ------------------------------------------------------------------- every step keeps it

  lemma SendDeliversCounted(s: State, t: nat, ep: nat, msg: nat, oneWay: bool, timed: bool)
    requires Inv(s) && Running(s, t) && ep < |s.sendq| && s.recvq[ep] != []
    ensures Counted(SendStep(s, t, ep, msg, oneWay, timed))
  {
    hide Sends, Gets, Answers, Queued, Exclusive, LogOk, Phased, PhaseOk;
    var s' := SendStep(s, t, ep, msg, oneWay, timed);
    RecvHead(s, ep);
    FreshOp(s);
    var r := s.recvq[ep][0];
    var rop := s.phases[r].op;
    assert OpOk(s, rop);
    forall op: nat | op < |s'.ops|
      ensures OpOk(s', op)
    {
      SendsAppend(s.log, s'.log[|s.log|], op);
      if op < |s.ops| && op != rop {
        assert OpOk(s, op);
        OpStays(s, s', op);
      }
    }
  }

  lemma SendQueuesCounted(s: State, t: nat, ep: nat, msg: nat, oneWay: bool, timed: bool)
    requires Inv(s) && Running(s, t) && ep < |s.sendq| && s.recvq[ep] == []
    ensures Counted(SendStep(s, t, ep, msg, oneWay, timed))
  {
    var s' := SendStep(s, t, ep, msg, oneWay, timed);
    FreshOp(s);
    forall op: nat | op < |s'.ops|
      ensures OpOk(s', op)
    {
      if op < |s.ops| {
        assert OpOk(s, op);
        OpStays(s, s', op);
      }
    }
  }

  lemma SendQueued(s: State, t: nat, ep: nat, msg: nat, oneWay: bool, timed: bool)
    requires Inv(s) && Running(s, t) && ep < |s.sendq|
    ensures WellFormed(SendStep(s, t, ep, msg, oneWay, timed)) && Queued(SendStep(s, t, ep, msg, oneWay, timed))
  {
    hide Counted, LogOk, IsQueue;
    var s' := SendStep(s, t, ep, msg, oneWay, timed);
    if s.recvq[ep] != [] {
      RecvHead(s, ep);
      Popped(s.recvq[ep], ReceiversAt(s, ep));
    } else {
      Pushed(s.sendq[ep], SendersAt(s, ep), t);
    }
    forall e: nat | e < |s.sendq|
      ensures IsQueue(s'.sendq[e], SendersAt(s', e)) && IsQueue(s'.recvq[e], ReceiversAt(s', e))
    {
      forall x: nat | x < |s.phases|
        ensures InSendQueue(s', e, x) <==> InSendQueue(s, e, x) || (s.recvq[ep] == [] && x == t && e == ep)
        ensures InRecvQueue(s', e, x) <==> InRecvQueue(s, e, x) && !(s.recvq[ep] != [] && x == s.recvq[ep][0])
      {
        assert PhaseOk(s, x);
      }
      if s.recvq[ep] != [] {
        assert SendersAt(s', e) == SendersAt(s, e);
        assert ReceiversAt(s', e) == if e == ep then ReceiversAt(s, e) - {s.recvq[ep][0]} else ReceiversAt(s, e);
      } else {
        assert SendersAt(s', e) == if e == ep then SendersAt(s, e) + {t} else SendersAt(s, e);
        assert ReceiversAt(s', e) == ReceiversAt(s, e);
      }
    }
  }

  lemma SendKeeps(s: State, t: nat, ep: nat, msg: nat, oneWay: bool, timed: bool)
    requires Inv(s) && Running(s, t) && ep < |s.sendq|
    ensures Inv(SendStep(s, t, ep, msg, oneWay, timed))
  {
    hide Counted, Queued;
    var s' := SendStep(s, t, ep, msg, oneWay, timed);
    SendQueued(s, t, ep, msg, oneWay, timed);
    if s.recvq[ep] != [] {
      RecvHead(s, ep);
      SendDeliversCounted(s, t, ep, msg, oneWay, timed);
    } else {
      SendQueuesCounted(s, t, ep, msg, oneWay, timed);
    }
    forall u: nat | u < |s'.phases|
      ensures PhaseOk(s', u)
    {
      assert PhaseOk(s, u);
    }
  }

  lemma ReceiveDeliversCounted(s: State, t: nat, ep: nat, timed: bool)
    requires Inv(s) && Running(s, t) && ep < |s.sendq| && s.sendq[ep] != []
    ensures Counted(ReceiveStep(s, t, ep, timed))
  {
    hide Sends, Gets, Answers, Queued, Exclusive, LogOk, Phased, PhaseOk;
    var s' := ReceiveStep(s, t, ep, timed);
    SendHead(s, ep);
    FreshOp(s);
    var sop := s.phases[s.sendq[ep][0]].op;
    assert OpOk(s, sop);
    forall op: nat | op < |s'.ops|
      ensures OpOk(s', op)
    {
      SendsAppend(s.log, s'.log[|s.log|], op);
      if op < |s.ops| && op != sop {
        assert OpOk(s, op);
        OpStays(s, s', op);
      }
    }
  }

  lemma ReceiveQueuesCounted(s: State, t: nat, ep: nat, timed: bool)
    requires Inv(s) && Running(s, t) && ep < |s.sendq| && s.sendq[ep] == []
    ensures Counted(ReceiveStep(s, t, ep, timed))
  {
    var s' := ReceiveStep(s, t, ep, timed);
    FreshOp(s);
    forall op: nat | op < |s'.ops|
      ensures OpOk(s', op)
    {
      if op < |s.ops| {
        assert OpOk(s, op);
        OpStays(s, s', op);
      }
    }
  }

  lemma ReceiveQueued(s: State, t: nat, ep: nat, timed: bool)
    requires Inv(s) && Running(s, t) && ep < |s.sendq|
    ensures WellFormed(ReceiveStep(s, t, ep, timed)) && Queued(ReceiveStep(s, t, ep, timed))
  {
    hide Counted, LogOk, IsQueue;
    var s' := ReceiveStep(s, t, ep, timed);
    if s.sendq[ep] != [] {
      SendHead(s, ep);
      Popped(s.sendq[ep], SendersAt(s, ep));
    } else {
      Pushed(s.recvq[ep], ReceiversAt(s, ep), t);
    }
    forall e: nat | e < |s.sendq|
      ensures IsQueue(s'.sendq[e], SendersAt(s', e)) && IsQueue(s'.recvq[e], ReceiversAt(s', e))
    {
      forall x: nat | x < |s.phases|
        ensures InRecvQueue(s', e, x) <==> InRecvQueue(s, e, x) || (s.sendq[ep] == [] && x == t && e == ep)
        ensures InSendQueue(s', e, x) <==> InSendQueue(s, e, x) && !(s.sendq[ep] != [] && x == s.sendq[ep][0])
      {
        assert PhaseOk(s, x);
      }
      if s.sendq[ep] != [] {
        assert ReceiversAt(s', e) == ReceiversAt(s, e);
        assert SendersAt(s', e) == if e == ep then SendersAt(s, e) - {s.sendq[ep][0]} else SendersAt(s, e);
      } else {
        assert ReceiversAt(s', e) == if e == ep then ReceiversAt(s, e) + {t} else ReceiversAt(s, e);
        assert SendersAt(s', e) == SendersAt(s, e);
      }
    }
  }

  lemma ReceiveKeeps(s: State, t: nat, ep: nat, timed: bool)
    requires Inv(s) && Running(s, t) && ep < |s.sendq|
    ensures Inv(ReceiveStep(s, t, ep, timed))
  {
    hide Counted, Queued;
    var s' := ReceiveStep(s, t, ep, timed);
    ReceiveQueued(s, t, ep, timed);
    if s.sendq[ep] != [] {
      SendHead(s, ep);
      ReceiveDeliversCounted(s, t, ep, timed);
    } else {
      ReceiveQueuesCounted(s, t, ep, timed);
    }
    forall u: nat | u < |s'.phases|
      ensures PhaseOk(s', u)
    {
      assert PhaseOk(s, u);
    }
  }

  /** Steps that change the phase of one thread, and at most take it out of its queues. */
  lemma OneThreadQueued(s: State, s': State, t: nat)
    requires Inv(s) && WellFormed(s') && t < |s.phases| && s'.ops == s.ops && |s'.sendq| == |s.sendq|
    requires |s'.phases| == |s.phases| && s'.phases == s.phases[t := s'.phases[t]]
    requires forall ep: nat :: ep < |s.sendq| ==>
               if InSendQueue(s, ep, t) && !InSendQueue(s', ep, t) then s'.sendq[ep] == Without(s.sendq[ep], t)
               else s'.sendq[ep] == s.sendq[ep]
    requires forall ep: nat :: ep < |s.sendq| ==>
               if InRecvQueue(s, ep, t) && !InRecvQueue(s', ep, t) then s'.recvq[ep] == Without(s.recvq[ep], t)
               else s'.recvq[ep] == s.recvq[ep]
    requires forall ep: nat :: InSendQueue(s', ep, t) ==> InSendQueue(s, ep, t)
    requires forall ep: nat :: InRecvQueue(s', ep, t) ==> InRecvQueue(s, ep, t)
    ensures Queued(s')
  {
    hide Counted, LogOk, IsQueue, Without;
    forall e: nat | e < |s.sendq|
      ensures IsQueue(s'.sendq[e], SendersAt(s', e)) && IsQueue(s'.recvq[e], ReceiversAt(s', e))
    {
      TakenOut(s.sendq[e], SendersAt(s, e), t);
      TakenOut(s.recvq[e], ReceiversAt(s, e), t);
      assert SendersAt(s', e) == if InSendQueue(s', e, t) then SendersAt(s, e) else SendersAt(s, e) - {t};
      assert ReceiversAt(s', e) == if InRecvQueue(s', e, t) then ReceiversAt(s, e) else ReceiversAt(s, e) - {t};
      assert InSendQueue(s, e, t) || SendersAt(s, e) - {t} == SendersAt(s, e);
      assert InRecvQueue(s, e, t) || ReceiversAt(s, e) - {t} == ReceiversAt(s, e);
    }
  }

  /** Steps that change the phase of one thread change the standing of its operation only. */
  lemma OneThreadCounted(s: State, s': State, t: nat)
    requires Inv(s) && t < |s.phases| && s.phases[t] != Idle && s'.ops == s.ops && s'.log == s.log && s'.late == s.late
    requires |s'.phases| == |s.phases| && s'.phases == s.phases[t := s'.phases[t]]
    requires s'.results == s.results
             || (s.phases[t].op in s'.results && s'.results == s.results[s.phases[t].op := s'.results[s.phases[t].op]])
    requires s'.replies == s.replies || s'.replies == s.replies + [s.phases[t].op]
    requires s.phases[t].op < |s.ops| && OpOk(s', s.phases[t].op)
    ensures Counted(s')
  {
    forall op: nat | op < |s.ops|
      ensures OpOk(s', op)
    {
      assert OpOk(s, op);
      AnswersAppend(s.replies, s.phases[t].op, op);
      if op != s.phases[t].op {
        OpStays(s, s', op);
      }
    }
  }

  lemma ReplyKeeps(s: State, caller: nat)
    requires Inv(s) && AwaitsReply(s, caller)
    ensures Inv(ReplyStep(s, caller))
  {
    hide Queued, Counted;
    var s' := ReplyStep(s, caller);
    var op := s.phases[caller].op;
    assert PhaseOk(s, caller);
    OneThreadQueued(s, s', caller);
    assert OpOk(s', op) by {
      assert OpOk(s, op) by { CountedAt(s, op); }
      AnswersAppend(s.replies, op, op);
    }
    OneThreadCounted(s, s', caller);
    forall u: nat | u < |s'.phases|
      ensures PhaseOk(s', u)
    {
      assert PhaseOk(s, u);
    }
  }

  lemma CountedAt(s: State, op: nat)
    requires Counted(s) && op < |s.ops|
    ensures OpOk(s, op)
  {
  }

  lemma FireKeeps(s: State, t: nat)
    requires Inv(s) && Enabled(s, Fire(t))
    ensures Inv(FireStep(s, t))
  {
    hide Queued, Counted;
    var s' := FireStep(s, t);
    assert PhaseOk(s, t);
    OneThreadQueued(s, s', t);
    CountedAt(s, s.phases[t].op);
    OneThreadCounted(s, s', t);
    forall u: nat | u < |s'.phases|
      ensures PhaseOk(s', u)
    {
      assert PhaseOk(s, u);
    }
  }

  lemma ExpireKeeps(s: State, t: nat)
    requires Inv(s) && Enabled(s, Expire(t))
    ensures Inv(ExpireStep(s, t))
  {
    hide Queued, Counted, Without;
    var s' := ExpireStep(s, t);
    assert PhaseOk(s, t);
    OneThreadQueued(s, s', t);
    CountedAt(s, s.phases[t].op);
    OneThreadCounted(s, s', t);
    forall u: nat | u < |s'.phases|
      ensures PhaseOk(s', u)
    {
      assert PhaseOk(s, u);
    }
  }

  lemma ReturnKeeps(s: State, t: nat)
    requires Inv(s) && Enabled(s, Return(t))
    ensures Inv(ReturnStep(s, t))
  {
    hide Queued, Counted;
    var s' := ReturnStep(s, t);
    assert PhaseOk(s, t);
    OneThreadQueued(s, s', t);
    CountedAt(s, s.phases[t].op);
    OneThreadCounted(s, s', t);
    forall u: nat | u < |s'.phases|
      ensures PhaseOk(s', u)
    {
      assert PhaseOk(s, u);
    }
  }

  lemma StepKeeps(s: State, a: Action)
    requires Inv(s) && Enabled(s, a)
    ensures Inv(Next(s, a))
  {
    hide Phased, Queued, Exclusive, LogOk, Counted, SendStep, ReceiveStep, FireStep, ExpireStep, ReturnStep;
    match a
    case DoSend(t, ep, msg, oneWay, timed) => SendKeeps(s, t, ep, msg, oneWay, timed);
    case DoReceive(t, ep, timed) => ReceiveKeeps(s, t, ep, timed);
    case DoReplyTo(_, caller) => ReplyKeeps(s, caller);
    case DoReply(t) =>
      ReplyKeeps(s, s.peer[t].value);
      PeerIsFree(ReplyStep(s, s.peer[t].value), s.peer[t := None]);
    case Fire(t) => FireKeeps(s, t);
    case Expire(t) => ExpireKeeps(s, t);
    case Return(t) => ReturnKeeps(s, t);
  }

  lemma PeerIsFree(s: State, peer: seq<Option<nat>>)
    requires Inv(s) && |peer| == |s.peer|
    ensures Inv(s.(peer := peer))
  {
    hide Without;
    var s' := s.(peer := peer);
    forall t: nat | t < |s.phases|
      ensures PhaseOk(s', t)
    {
      assert PhaseOk(s, t);
    }
    forall ep: nat | ep < |s.sendq|
      ensures IsQueue(s'.sendq[ep], SendersAt(s', ep)) && IsQueue(s'.recvq[ep], ReceiversAt(s', ep))
    {
      assert SendersAt(s', ep) == SendersAt(s, ep) && ReceiversAt(s', ep) == ReceiversAt(s, ep);
    }
    forall i | 0 <= i < |s.log|
      ensures DeliveryOk(s', s'.log[i])
    {
      assert DeliveryOk(s, s.log[i]);
    }
    forall op: nat | op < |s.ops|
      ensures OpOk(s', op)
    {
      assert OpOk(s, op);
    }
  }
}
