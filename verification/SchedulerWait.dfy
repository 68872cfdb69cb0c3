/**
  What a thread that blocks or sleeps can rely on: it is woken by the first wakeup on its channel or the
  first timer tick at or after its own, whichever comes first, not before, and is told which it was.
  */
module SchedulerWait {
  import opened Bytes
  import opened Lists
  import opened RoundRobin
  import opened Scheduler
  import opened Wrappers

  // -------------------------------------------------------------- how long a timeout is

  /** A timeout lasts the least number of ticks of 10 ms that cover it, iff the conversion does not
      overflow 32 bits. */
  lemma TimeoutIsRoundedUp(ms: nat)
    requires 0 < ms < UINT32
    ensures 10 * (TimeoutTicks(ms) - 1) < ms <= 10 * TimeoutTicks(ms) <==> ms * 100 + 999 < 0x1_0000_0000
  {
    var n := ms * 100 + 999;
    assert n % UINT32 == n - n / UINT32 * UINT32;
  }

  /** Almost twelve hours become one tick. */
  lemma TimeoutCanBeShort()
    ensures TimeoutTicks(42_949_663) == 1
  {
  }

  // ------------------------------------------------------------------ what ends a wait

  datatype Event = TimerTick(now: nat) | WakeupOn(chan: int)

  /** The event ends the wait of a thread on `chan` until tick `due`, or without end if that is 0. */
  predicate EndsWait(e: Event, chan: int, due: nat) {
    match e
    case TimerTick(now) => due != 0 && due <= now
    case WakeupOn(c) => c == chan
  }

  function FirstEnd(events: seq<Event>, chan: int, due: nat): Option<Event> {
    if events == [] then None
    else
      var n := |events| - 1;
      var before := FirstEnd(events[..n], chan, due);
      if before.None? && EndsWait(events[n], chan, due) then Some(events[n]) else before
  }

  /** The answer is the first event that ends the wait, if there is one. */
  lemma {:induction false} FirstEndIs(events: seq<Event>, chan: int, due: nat)
    ensures FirstEnd(events, chan, due) == None <==>
            forall i :: 0 <= i < |events| ==> !EndsWait(events[i], chan, due)
    ensures forall e :: FirstEnd(events, chan, due) == Some(e) <==>
                          exists i :: 0 <= i < |events| && events[i] == e && EndsWait(e, chan, due)
                                      && forall j :: 0 <= j < i ==> !EndsWait(events[j], chan, due)
  {
    hide EndsWait;
    if events != [] {
      var n := |events| - 1;
      FirstEndIs(events[..n], chan, due);
      assert forall i :: 0 <= i < n ==> events[..n][i] == events[i];
      if FirstEnd(events[..n], chan, due).None? && EndsWait(events[n], chan, due) {
        assert forall j :: 0 <= j < n ==> !EndsWait(events[..n][j], chan, due);
      }
    }
  }

  // ------------------------------------------------------------------ one event

  /** Which of the blocked threads a wakeup takes. */
  lemma {:induction false} SelectIs(c: Condition, wakes: seq<nat>, chans: seq<int>, s: seq<nat>, t: nat)
    requires |wakes| == |chans| && forall x :: x in s ==> x < |wakes|
    ensures t in Select(c, wakes, chans, s, true) <==>
            t in s && match c { case OnChannel(ch) => chans[t] == ch case DueBy(now) => 0 < wakes[t] <= now }
    ensures t in Select(c, wakes, chans, s, false) <==> t in s && t !in Select(c, wakes, chans, s, true)
  {
    if s != [] {
      assert s[0] in s && forall x :: x in s[1..] ==> x in s;
      SelectIs(c, wakes, chans, s[1..], t);
      assert s == [s[0]] + s[1..];
    }
  }

  lemma TickMembers(q: Queue, due: seq<nat>, t: nat)
    ensures t in RoundRobin.Tick(q, due).threads <==> t in q.threads || t in due
  {
    var ts := q.threads + due;
    assert t in ts <==> t in q.threads || t in due;
    if ts != [] {
      assert ts == [ts[0]] + ts[1..];
    }
  }

  /** Thread `t` waits on `chan` until tick `due`, or has been woken by `end`. */
  ghost predicate Waiting(s: Scheduler, t: nat, chan: int, due: nat, end: Option<Event>)
    reads s
  {
    && t < |s.wakeupTick| == |s.waitChan|
    && match end
       case None => t in s.blocked && s.wakeupTick[t] == due && s.waitChan[t] == chan
       case Some(TimerTick(_)) => t in s.runq && s.wakeupTick[t] == 0
       case Some(WakeupOn(_)) => t in s.runq && s.wakeupTick[t] == due
  }

  lemma BlockedFacts(s: Scheduler)
    requires s.Valid()
    ensures |s.wakeupTick| == |s.waitChan| && s.Abs().threads == s.runq
    ensures forall x :: x in s.blocked ==> x < |s.wakeupTick| && x !in s.runq
  {
    hide Linked, States, OnCpu, TailsFull, Covers;
    s.ListFacts();
  }

  method Happen(s: Scheduler, e: Event, ghost t: nat, ghost chan: int, ghost due: nat, ghost end: Option<Event>)
    requires s.Valid() && Waiting(s, t, chan, due, end)
    modifies s
    ensures s.Valid()
    ensures Waiting(s, t, chan, due, if end.None? && EndsWait(e, chan, due) then Some(e) else end)
  {
    hide Scheduler.Valid, Scheduler.Abs, Select, RoundRobin.Tick;
    BlockedFacts(s);
    ghost var c := match e case TimerTick(now) => DueBy(now) case WakeupOn(ch) => OnChannel(ch);
    ghost var woken := Select(c, s.wakeupTick, s.waitChan, s.blocked, true);
    SelectIs(c, s.wakeupTick, s.waitChan, s.blocked, t);
    TickMembers(s.Abs(), woken, t);
    match e {
      case TimerTick(now) => s.Tick(now);
      case WakeupOn(ch) => s.WakeMatching(OnChannel(ch));
    }
    BlockedFacts(s);
  }

  method HappenAll(s: Scheduler, events: seq<Event>, ghost t: nat, ghost chan: int, ghost due: nat)
    requires s.Valid() && Waiting(s, t, chan, due, None)
    modifies s
    ensures s.Valid() && Waiting(s, t, chan, due, FirstEnd(events, chan, due))
  {
    hide Scheduler.Valid, Waiting;
    for i := 0 to |events|
      invariant s.Valid() && Waiting(s, t, chan, due, FirstEnd(events[..i], chan, due))
    {
      Happen(s, events[i], t, chan, due, FirstEnd(events[..i], chan, due));
      assert events[..i + 1][..i] == events[..i];
    }
    assert events[..|events|] == events;
  }

  // ------------------------------------------------------------------ whole waits

  /** A wait with a timeout, and what happens meanwhile. The thread stays blocked until the first event that
      ends its wait, and is ready from then on. When it has the CPU again, it learns whether it was woken
      in time. */
  method WaitWithTimeout(s: Scheduler, chan: int, timeoutMs: nat, now: nat, events: seq<Event>)
    returns (blocks: bool, inTime: Option<bool>)
    requires s.Valid() && s.current > 0 && timeoutMs < UINT32
    modifies s
    ensures s.Valid() && old(s.current) < |old(s.pendingWakeup)| && blocks == !old(s.pendingWakeup)[old(s.current)]
    ensures blocks ==>
              var end := FirstEnd(events, chan, if timeoutMs == 0 then 0 else now + TimeoutTicks(timeoutMs));
              && (end.None? ==> old(s.current) in s.blocked && inTime.None?)
              && (end.Some? ==> old(s.current) in s.runq && (s.current == old(s.current) <==> inTime.Some?))
              && (inTime.Some? ==> (inTime.value <==> end.value.WakeupOn?))
  {
    hide Scheduler.Valid, Scheduler.Abs, Scheduler.Sized, LeaveHead;
    var t := s.current;
    inTime := None;
    blocks := s.BlockTimeout(chan, timeoutMs, now);
    if !blocks {
      return;
    }
    ghost var due := if timeoutMs == 0 then 0 else now + TimeoutTicks(timeoutMs);
    BlockedFacts(s);
    HappenAll(s, events, t, chan, due);
    BlockedFacts(s);
    CurrentIsQueued(s);
    FirstEndIs(events, chan, due);
    if s.current == t {
      ghost var ready := s.runq;
      var woken := s.Resume(timeoutMs, true);
      BlockedFacts(s);
      inTime := Some(woken);
    }
  }

  lemma CurrentIsQueued(s: Scheduler)
    requires s.Valid()
    ensures s.current > 0 ==> s.current in s.runq
  {
  }

  /** A sleep lasts until the first timer tick at or after its end, unless the thread itself is woken. */
  method Sleep(s: Scheduler, ticks: nat, now: nat, events: seq<Event>)
    requires s.Valid() && s.current > 0 && ticks > 0
    modifies s
    ensures s.Valid()
    ensures if FirstEnd(events, old(s.current), now + ticks).None? then old(s.current) in s.blocked
            else old(s.current) in s.runq
  {
    hide Scheduler.Valid, Scheduler.Abs, LeaveHead, FirstEnd;
    var t := s.current;
    s.SleepTicks(ticks, now);
    BlockedFacts(s);
    HappenAll(s, events, t, t, now + ticks);
  }

  // ------------------------------------------------------------------ threads that are gone

  /** Which zombies a cleanup frees. */
  lemma {:induction false} ReapIs(detached: seq<bool>, joined: seq<bool>, s: seq<nat>, t: nat)
    requires |detached| == |joined| && forall x :: x in s ==> x < |detached|
    ensures t in Reap(detached, joined, s, true) <==> t in s && (detached[t] || joined[t])
    ensures t in Reap(detached, joined, s, false) <==> t in s && !detached[t] && !joined[t]
  {
    if s != [] {
      assert s[0] in s && forall x :: x in s[1..] ==> x in s;
      ReapIs(detached, joined, s[1..], t);
      assert s == [s[0]] + s[1..];
    }
  }

  lemma ZombiesInRange(s: Scheduler)
    requires s.Valid()
    ensures |s.isDetached| == |s.hasBeenJoined| && forall x :: x in s.dead ==> x < |s.isDetached|
  {
    hide Linked, States, OnCpu, TailsFull, Covers;
    s.ListFacts();
  }

  /** A thread that is forced out is freed by the next cleanup. */
  method ForceOutAndCleanup(s: Scheduler, t: nat)
    requires s.Valid() && t in s.live && t != s.current && t !in s.dead
    modifies s
    ensures s.Valid() && t !in s.live && t !in s.runq && t !in s.blocked && t !in s.dead
  {
    hide Scheduler.Valid, Scheduler.Abs, Reap, Without;
    s.ForceExit(t);
    ZombiesInRange(s);
    assert t in s.dead;
    ReapIs(s.isDetached, s.hasBeenJoined, s.dead, t);
    s.CleanupZombies();
    s.ExactlyOneList(t);
  }
}
