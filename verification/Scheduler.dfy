/**
  The scheduler on one CPU: run queue, blocked list and zombie list share the one `next` link of the
  threads.

  A thread is an index; each field of `struct thread` is a table over those indices, so `t->next` is
  `next[t]`. NULL is -1 and the idle thread is thread 0, which is never on a list. Each method runs
  without interruption, as a system call or the timer interrupt does on one CPU; the methods that
  give up the CPU end with the switch to the next thread.
  */
module Scheduler {
  import opened Bytes
  import opened Lists
  import opened RoundRobin

  const IDLE := 0

  datatype ThreadState = Ready | Running | Blocked | Exited

  // --------------------------------------------------------- what the lists mean

  /** No thread is on two lists or twice on one, and the idle thread is on none. */
  ghost predicate Apart(a: seq<nat>, b: seq<nat>, c: seq<nat>) {
    && Distinct(a) && Distinct(b) && Distinct(c)
    && (forall x :: x in a ==> x !in b && x !in c && x != IDLE)
    && (forall x :: x in b ==> x !in c && x != IDLE)
    && (forall x :: x in c ==> x != IDLE)
  }

  ghost predicate Covers(live: set<nat>, a: seq<nat>, b: seq<nat>, c: seq<nat>) {
    forall x :: x in live <==> x in a || x in b || x in c
  }

  ghost predicate Unlisted(t: nat, a: seq<nat>, b: seq<nat>, c: seq<nat>) {
    t !in a && t !in b && t !in c
  }

  /** States match lists. */
  ghost predicate States(state: seq<ThreadState>, runq: seq<nat>, blocked: seq<nat>, dead: seq<nat>) {
    && (forall x :: x in runq && x < |state| ==> state[x] == Ready || state[x] == Running)
    && (forall x :: x in blocked && x < |state| ==> state[x] == Blocked)
    && (forall x :: x in dead && x < |state| ==> state[x] == Exited)
  }

  /** `running_on` marks exactly the current thread, and only it may be RUNNING. */
  ghost predicate OnCpu(state: seq<ThreadState>, onCpu: seq<bool>, current: int) {
    && |onCpu| == |state|
    && (forall x :: 0 < x < |onCpu| ==> (onCpu[x] <==> x == current))
    && (forall x :: 0 < x < |state| && state[x] == Running ==> x == current)
  }

  /** Every queued thread but the head holds a full slice. */
  ghost predicate TailsFull(slice: seq<nat>, runq: seq<nat>) {
    forall i :: 1 <= i < |runq| && runq[i] < |slice| ==> slice[runq[i]] == CFG_DEF_TIME_SLICE
  }

  function SliceOfHead(slice: seq<nat>, runq: seq<nat>): nat {
    if runq != [] && runq[0] < |slice| then slice[runq[0]] else CFG_DEF_TIME_SLICE
  }

  function SwitchedState(state: seq<ThreadState>, current: int, pick: int): seq<ThreadState>
    requires current < |state| && 0 <= pick < |state|
  {
    var s := if current > 0 && state[current] == Running then state[current := Ready] else state;
    if pick != IDLE then s[pick := Running] else s
  }

  function SwitchedCpu(onCpu: seq<bool>, current: int, pick: int): seq<bool>
    requires current < |onCpu| && 0 <= pick < |onCpu|
  {
    var s := if current > 0 then onCpu[current := false] else onCpu;
    if pick != IDLE then s[pick := true] else s
  }

  lemma SwitchKeeps(state: seq<ThreadState>, onCpu: seq<bool>, current: int, pick: int,
                    runq: seq<nat>, blocked: seq<nat>, dead: seq<nat>)
    requires States(state, runq, blocked, dead) && OnCpu(state, onCpu, current) && Apart(runq, blocked, dead)
    requires current < |state| && 0 <= pick < |state| && (pick == IDLE || pick in runq) && pick != current
    ensures States(SwitchedState(state, current, pick), runq, blocked, dead)
    ensures OnCpu(SwitchedState(state, current, pick), SwitchedCpu(onCpu, current, pick), pick)
  {
  }

  /** Threads the wakeup loop has not reached: wakeup tick and channel are as they were. */
  ghost predicate Unseen(s: seq<nat>, ticks: seq<nat>, chan: seq<int>, wakes: seq<nat>, chans: seq<int>) {
    && |wakes| == |ticks| && |chans| == |chan|
    && forall x :: x in s ==> x < |wakes| && x < |chans| && ticks[x] == wakes[x] && chan[x] == chans[x]
  }

  /** Waking the first of them leaves the others unseen. */
  lemma UnseenRest(s: seq<nat>, ticks: seq<nat>, chan: seq<int>, ticks': seq<nat>, chan': seq<int>, wakes: seq<nat>,
                   chans: seq<int>)
    requires Unseen(s, ticks, chan, wakes, chans) && s != [] && forall x :: x in s[1..] ==> x in s && x != s[0]
    requires |ticks'| == |ticks| && |chan'| == |chan|
    requires forall x: nat :: x != s[0] && x < |ticks| ==> ticks'[x] == ticks[x]
    requires forall x: nat :: x != s[0] && x < |chan| ==> chan'[x] == chan[x]
    ensures Unseen(s[1..], ticks', chan', wakes, chans)
    ensures s[0] < |wakes| && s[0] < |chans| && ticks[s[0]] == wakes[s[0]] && chan[s[0]] == chans[s[0]]
  {
    assert s[0] in s;
  }

  /** The woken threads wait for nothing any more: their channel is cleared, and by the timer their wakeup
      tick too. All else is as before. */
  ghost predicate Rung(c: Condition, woken: seq<nat>, wakes: seq<nat>, chans: seq<int>, ticks: seq<nat>,
                       chan: seq<int>) {
    && |ticks| == |wakes| && |chan| == |chans|
    && (forall x: nat :: x < |wakes| ==> ticks[x] == if c.DueBy? && x in woken then 0 else wakes[x])
    && (forall x: nat :: x < |chans| ==> chan[x] == if x in woken then NULL else chans[x])
  }

  lemma RungNone(c: Condition, wakes: seq<nat>, chans: seq<int>)
    ensures Rung(c, [], wakes, chans, wakes, chans)
  {
  }

  lemma RungMore(c: Condition, woken: seq<nat>, wakes: seq<nat>, chans: seq<int>, ticks: seq<nat>, chan: seq<int>,
                 t: nat)
    requires Rung(c, woken, wakes, chans, ticks, chan) && t < |ticks| && t < |chan|
    ensures Rung(c, woken + [t], wakes, chans, if c.DueBy? then ticks[t := 0] else ticks, chan[t := NULL])
  {
    assert forall x: nat :: x in woken + [t] <==> x in woken || x == t;
  }

  /** A zombie that is freed is on no list any more. */
  lemma FreeKeeps(state: seq<ThreadState>, live: set<nat>, runq: seq<nat>, blocked: seq<nat>, dead: seq<nat>, z: nat)
    requires Apart(runq, blocked, dead) && Covers(live, runq, blocked, dead)
    requires States(state, runq, blocked, dead) && z in dead
    ensures Apart(runq, blocked, Without(dead, z)) && Covers(live - {z}, runq, blocked, Without(dead, z))
    ensures States(state, runq, blocked, Without(dead, z))
    ensures forall x :: x in runq || x in blocked ==> x !in dead
  {
    hide Without;
    WithoutFacts(dead, z, 0);
  }

  class Scheduler {
    var next: seq<int>
    var state: seq<ThreadState>
    var slice: seq<nat>
    var onCpu: seq<bool>
    var wakeupTick: seq<nat>
    var waitChan: seq<int>
    var pendingWakeup: seq<bool>
    var isDetached: seq<bool>
    var hasBeenJoined: seq<bool>

    var head: int
    var tail: int
    var current: int
    var nrRunning: nat
    var blockedList: int
    var zombieList: int

    ghost var runq: seq<nat>
    ghost var blocked: seq<nat>
    ghost var dead: seq<nat>
    ghost var live: set<nat>  // the threads spawned and not yet freed

    ghost predicate RunQueueOk()
      reads this`next, this`head, this`tail, this`nrRunning, this`runq
    {
      Linked(next, head, runq) && tail == (if runq == [] then NULL else runq[|runq| - 1]) && nrRunning == |runq|
    }

    ghost predicate Sized()
      reads this`next, this`state, this`slice, this`onCpu, this`wakeupTick, this`waitChan, this`pendingWakeup,
            this`isDetached, this`hasBeenJoined
    {
      0 < |next| == |state| == |slice| == |onCpu| == |wakeupTick| == |waitChan| == |pendingWakeup| == |isDetached|
      == |hasBeenJoined|
    }

    /** The three lists are properly linked and share no thread. */
    ghost predicate Links()
      reads this`next, this`head, this`tail, this`nrRunning, this`runq, this`blockedList, this`blocked, this`zombieList,
            this`dead
    {
      && RunQueueOk() && Linked(next, blockedList, blocked) && Linked(next, zombieList, dead)
      && Apart(runq, blocked, dead)
    }

    /** Every live thread is on exactly one of the three lists, in the matching state. */
    ghost predicate Lists()
      reads this
    {
      && Sized() && Links()
      && Covers(live, runq, blocked, dead)
      && States(state, runq, blocked, dead)
      && OnCpu(state, onCpu, current) && TailsFull(slice, runq)
    }

    /** What the links say about the lists. */
    lemma ListFacts()
      requires Links()
      ensures Apart(runq, blocked, dead) && blockedList == At(blocked, 0) && zombieList == At(dead, 0)
      ensures forall k: nat :: k < |blocked| ==> 0 < blocked[k] < |next| && next[blocked[k]] == At(blocked, k + 1)
      ensures forall k: nat :: k < |dead| ==> 0 < dead[k] < |next| && next[dead[k]] == At(dead, k + 1)
    {
      forall k: nat | k < |blocked| ensures 0 < blocked[k] < |next| && next[blocked[k]] == At(blocked, k + 1) {
        assert blocked[k] in blocked;
      }
      forall k: nat | k < |dead| ensures 0 < dead[k] < |next| && next[dead[k]] == At(dead, k + 1) {
        assert dead[k] in dead;
      }
    }

    ghost function HeadSlice(): nat
      reads this`runq, this`slice
    {
      SliceOfHead(slice, runq)
    }

    ghost predicate Valid()
      reads this
    {
      && Lists() && 0 < HeadSlice() <= CFG_DEF_TIME_SLICE
      && (current == NULL || current == IDLE || (runq != [] && current == runq[0] && state[current] == Running))
      && (current <= 0 ==> HeadSlice() == CFG_DEF_TIME_SLICE)
    }

    /** The run queue as the round-robin policy sees it. */
    ghost function Abs(): Queue
      reads this`runq, this`slice, this`current
    {
      Queue(runq, HeadSlice(), current > 0)
    }

    /** A scheduler with room for `n` threads besides the idle thread. */
    constructor (n: nat)
      ensures Valid() && |next| == n + 1 && live == {} && runq == blocked == dead == [] && current == NULL
    {
      next, state, slice := seq(n + 1, _ => NULL), seq(n + 1, _ => Ready), seq(n + 1, _ => 0);
      onCpu, wakeupTick, waitChan := seq(n + 1, _ => false), seq(n + 1, _ => 0), seq(n + 1, _ => NULL);
      pendingWakeup, isDetached := seq(n + 1, _ => false), seq(n + 1, _ => false);
      hasBeenJoined := seq(n + 1, _ => false);
      head, tail, current, nrRunning, blockedList, zombieList := NULL, NULL, NULL, 0, NULL, NULL;
      runq, blocked, dead, live := [], [], [], {};
    }

    // ------------------------------------------------------ the policy's queue

    method RrEnqueue(t: nat)
      requires Sized() && RunQueueOk() && Distinct(runq) && t < |next| && t !in runq
      modifies this`next, this`state, this`slice, this`head, this`tail, this`nrRunning, this`runq
      ensures Sized() && RunQueueOk() && runq == old(runq) + [t]
      ensures forall i :: 0 <= i < |old(runq)| ==> old(runq)[i] < |next|
      ensures next == Appended(old(next), old(runq), t)
      ensures state == old(state)[t := Ready] && slice == old(slice)[t := CFG_DEF_TIME_SLICE]
    {
      hide Linked;
      LinkedAppend(next, head, runq, t);
      ListEnds(next, head, runq);
      next := next[t := NULL];
      state := state[t := Ready];
      slice := slice[t := CFG_DEF_TIME_SLICE];
      if head == NULL {
        head, tail := t, t;
      } else {
        next := next[tail := t];
        tail := t;
      }
      nrRunning := nrRunning + 1;
      runq := runq + [t];
    }

    method RrDequeue(t: nat)
      requires RunQueueOk() && Distinct(runq)
      modifies this`next, this`head, this`tail, this`nrRunning, this`runq
      ensures RunQueueOk() && runq == Without(old(runq), t) && |next| == |old(next)|
      ensures forall x :: 0 <= x < |next| && x !in old(runq) ==> next[x] == old(next)[x]
      ensures t !in old(runq) ==> next == old(next)
    {
      var prev, curr := NULL, head;
      ghost var k := 0;
      while curr != NULL
        invariant k <= |runq| && curr == At(runq, k) && prev == (if k == 0 then NULL else runq[k - 1])
        invariant forall i :: 0 <= i < k ==> runq[i] != t
        invariant RunQueueOk() && next == old(next) && runq == old(runq)
        decreases |runq| - k
      {
        if curr == t {
          ListEnds(next, head, runq);
          RrUnlink(prev, t, k);
          return;
        }
        prev := curr;
        curr := next[curr];
        k := k + 1;
      }
      WithoutAbsent(runq, t);
    }

    /** The found case of `RrDequeue`: thread `t` at position `k`, after `prev`. */
    method RrUnlink(prev: int, t: nat, ghost k: nat)
      requires RunQueueOk() && Distinct(runq) && k < |runq| && runq[k] == t
      requires forall i :: 0 <= i < |runq| ==> runq[i] < |next|
      requires prev == if k == 0 then NULL else runq[k - 1]
      modifies this`next, this`head, this`tail, this`nrRunning, this`runq
      ensures RunQueueOk() && runq == Without(old(runq), t) && next == UnlinkedAt(old(next), old(runq), k)
    {
      hide Linked, Without;
      WithoutFacts(runq, t, k);
      LinkedUnlink(next, head, runq, k);
      var after := next[t];
      if prev != NULL {
        next := next[prev := after];
      } else {
        head := after;
      }
      if tail == t {
        tail := prev;
      }
      nrRunning := nrRunning - 1;
      next := next[t := NULL];
      runq := runq[..k] + runq[k + 1..];
    }

    /** Rotates the queue when the head has no slice left. */
    method RrPickNext() returns (pick: int)
      requires Sized() && RunQueueOk() && Distinct(runq)
      modifies this`next, this`slice, this`head, this`tail, this`runq
      ensures Sized() && RunQueueOk() && |next| == |old(next)| && pick == At(runq, 0)
      ensures forall x :: 0 <= x < |next| && x !in old(runq) ==> next[x] == old(next)[x]
      ensures if old(HeadSlice()) != 0 then runq == old(runq) && slice == old(slice)
              else old(runq) != [] && old(runq)[0] < |slice| && runq == old(runq)[1..] + [old(runq)[0]] &&
                   slice == old(slice)[old(runq)[0] := CFG_DEF_TIME_SLICE]
    {
      hide Linked;
      ListEnds(next, head, runq);
      if head == NULL {
        return NULL;
      }
      if slice[head] == 0 {
        RrRotate();
      }
      ListEnds(next, head, runq);
      return head;
    }

    method RrRotate()
      requires RunQueueOk() && Distinct(runq) && runq != [] && runq[0] < |slice|
      modifies this`next, this`slice, this`head, this`tail, this`runq
      ensures RunQueueOk() && runq == old(runq)[1..] + [old(runq)[0]] && |next| == |old(next)|
      ensures forall x :: 0 <= x < |next| && x !in old(runq) ==> next[x] == old(next)[x]
      ensures slice == old(slice)[old(runq)[0] := CFG_DEF_TIME_SLICE]
    {
      hide Linked, Distinct;
      ListEnds(next, head, runq);
      LinkedRotate(next, head, runq);
      var t := head;
      head := next[t];
      if head == NULL {
        tail := NULL;
      }
      next := next[t := NULL];
      if tail != NULL {
        next := next[tail := t];
        tail := t;
      } else {
        head, tail := t, t;
      }
      slice := slice[t := CFG_DEF_TIME_SLICE];
      runq := runq[1..] + [t];
    }

    // ---------------------------------------------------------- switching threads

    /** A switch is due: the current thread has used up or given up its slice, or has left the run
        queue, or the CPU is idle. */
    ghost predicate SwitchDue()
      reads this
    {
      && Lists() && -1 <= current < |next|
      && (current > 0 ==> current in blocked || current in dead || (runq != [] && current == runq[0]))
      && (if runq != [] && current == runq[0] then HeadSlice() == 0 && state[current] == Running
          else HeadSlice() == CFG_DEF_TIME_SLICE)
    }

    /** Marks the switch from the current thread to `pick`. */
    method SwitchTo(pick: int)
      requires Lists() && HeadSlice() == CFG_DEF_TIME_SLICE && -1 <= current < |next|
      requires pick == (if runq == [] then IDLE else runq[0]) && pick != current
      modifies this`state, this`onCpu, this`current
      ensures Valid() && current == pick && (pick == IDLE <==> runq == [])
    {
      hide Linked, Distinct, TailsFull, States, OnCpu;
      QueueHead();
      SwitchKeeps(state, onCpu, current, pick, runq, blocked, dead);
      if current != NULL && current != IDLE {
        if state[current] == Running {
          state := state[current := Ready];
        }
        onCpu := onCpu[current := false];
      }
      if pick != IDLE {
        state := state[pick := Running];
        onCpu := onCpu[pick := true];
      }
      current := pick;
    }

    lemma QueueMembers()
      requires RunQueueOk()
      ensures forall x :: x in runq ==> x < |next|
    {
    }

    lemma QueueHead()
      requires Lists()
      ensures runq != [] ==> runq[0] in runq && 0 < runq[0] < |next|
    {
      assert runq != [] ==> runq[0] in runq;
    }

    /** Picks the next thread; the idle thread when the queue is empty. */
    method Schedule()
      requires SwitchDue()
      modifies this`next, this`state, this`slice, this`onCpu, this`head, this`tail, this`current, this`runq
      ensures Valid()
      ensures Abs() == PickNext(Rotated(old(runq), old(current)))
      ensures current == if runq == [] then IDLE else runq[0]
    {
      hide Linked, Distinct, TailsFull, States, OnCpu;
      var pick := PickAndRotate();
      QueueHead();
      if pick == NULL {
        pick := IDLE;
      }
      if pick != current {
        SwitchTo(pick);
      }
    }

    method PickAndRotate() returns (pick: int)
      requires SwitchDue()
      modifies this`next, this`slice, this`head, this`tail, this`runq
      ensures Lists() && HeadSlice() == CFG_DEF_TIME_SLICE && pick == At(runq, 0) && |next| == |old(next)|
      ensures current > 0 && current == pick ==> state[current] == Running
      ensures runq == Rotated(old(runq), old(current))
    {
      hide Linked, OnCpu;
      ghost var q := runq;
      pick := RrPickNext();
      if q != [] && current == q[0] {
        RotationKeeps(q);
      }
      LinkedFrame(old(next), next, blockedList, blocked);
      LinkedFrame(old(next), next, zombieList, dead);
    }

    /** The current thread gives up its slice; without one the next thread is picked. */
    method Yield()
      requires Valid()
      modifies this`next, this`state, this`slice, this`onCpu, this`head, this`tail, this`current, this`runq
      ensures Valid()
      ensures if old(current) > 0 then old(runq) != [] && Abs() == Rotate(old(Abs())) else Abs() == PickNext(old(runq))
    {
      hide Linked, States, OnCpu, Apart;
      QueueHead();
      if current > 0 {
        SoleHead();
      }
      IdleIsNotQueued();
      if current != NULL {
        slice := slice[current := 0];
      }
      Schedule();
    }

    lemma IdleIsNotQueued()
      requires Lists()
      ensures forall i :: 0 <= i < |runq| ==> runq[i] != IDLE
    {
      forall i | 0 <= i < |runq| ensures runq[i] != IDLE {
        assert runq[i] in runq;
      }
    }

    lemma SoleHead()
      requires Valid() && current > 0
      ensures current < |next| && current in runq && Distinct(runq)
      ensures forall i :: 1 <= i < |runq| ==> runq[i] != current
    {
    }

    method QueueToBlocked(t: nat)
      requires Links() && t in runq
      modifies this`next, this`head, this`tail, this`nrRunning, this`runq, this`blockedList, this`blocked
      ensures Links() && |next| == |old(next)| && runq == Without(old(runq), t) && blocked == [t] + old(blocked)
    {
      hide Linked, Without, Distinct;
      ApartFacts(runq, blocked, dead);
      MoveKeepsApart(runq, blocked, t);
      QueueMembers();
      RrDequeue(t);
      LinkedFrame(old(next), next, blockedList, blocked);
      LinkedFrame(old(next), next, zombieList, dead);
      LinkedPush(next, blockedList, blocked, t);
      ghost var n := next;
      next := next[t := blockedList];
      LinkedFrame(n, next, head, runq);
      LinkedFrame(n, next, zombieList, dead);
      blockedList := t;
      blocked := [t] + blocked;
    }

    method QueueToZombies(t: nat)
      requires Links() && t in runq
      modifies this`next, this`head, this`tail, this`nrRunning, this`runq, this`zombieList, this`dead
      ensures Links() && |next| == |old(next)| && runq == Without(old(runq), t) && dead == [t] + old(dead)
    {
      hide Linked, Without, Distinct;
      ApartFacts(runq, blocked, dead);
      MoveKeepsApart(runq, dead, t);
      QueueMembers();
      RrDequeue(t);
      LinkedFrame(old(next), next, blockedList, blocked);
      LinkedFrame(old(next), next, zombieList, dead);
      LinkedPush(next, zombieList, dead, t);
      ghost var n := next;
      next := next[t := zombieList];
      LinkedFrame(n, next, head, runq);
      LinkedFrame(n, next, blockedList, blocked);
      zombieList := t;
      dead := [t] + dead;
    }

    /** The current thread leaves the run queue for the blocked list. */
    method BlockCurrent(chan: int, wakeAt: nat)
      requires Valid() && current > 0
      modifies this`next, this`state, this`slice, this`onCpu, this`head, this`tail, this`current, this`runq,
               this`nrRunning, this`blockedList, this`blocked, this`waitChan, this`wakeupTick
      ensures Valid() && Abs() == LeaveHead(old(Abs()))
      ensures blocked == [old(current)] + old(blocked)
      ensures |old(waitChan)| == |old(wakeupTick)| == |next| && old(current) < |next|
      ensures waitChan == old(waitChan)[old(current) := chan] && wakeupTick == old(wakeupTick)[old(current) := wakeAt]
    {
      hide Linked, Without, States, OnCpu, TailsFull, Covers, Apart, Distinct;
      SoleHead();
      HeadLeaves(state, onCpu, slice, live, runq, blocked, dead, Blocked);
      state := state[current := Blocked];
      waitChan := waitChan[current := chan];
      wakeupTick := wakeupTick[current := wakeAt];
      QueueToBlocked(current);
      Schedule();
    }

    method Exit()
      requires Valid() && current > 0
      modifies this`next, this`state, this`slice, this`onCpu, this`head, this`tail, this`current, this`runq,
               this`nrRunning, this`zombieList, this`dead
      ensures Valid() && Abs() == LeaveHead(old(Abs()))
      ensures dead == [old(current)] + old(dead)
    {
      hide Linked, Without, States, OnCpu, TailsFull, Covers, Apart;
      SoleHead();
      HeadLeaves(state, onCpu, slice, live, runq, blocked, dead, Exited);
      state := state[current := Exited];
      QueueToZombies(current);
      Schedule();
    }

    /** Returns false when a wakeup was already pending and the thread goes on; otherwise the thread
        blocks until it is woken. Its wakeup tick stays as it is. */
    method Block(chan: int) returns (blocks: bool)
      requires Valid() && current > 0
      modifies this`next, this`state, this`slice, this`onCpu, this`head, this`tail, this`current, this`runq,
               this`nrRunning, this`blockedList, this`blocked, this`waitChan, this`wakeupTick, this`pendingWakeup
      ensures Valid() && old(current) < |old(pendingWakeup)| && blocks == !old(pendingWakeup)[old(current)]
      ensures !blocks ==> Abs() == old(Abs()) && blocked == old(blocked)
                          && pendingWakeup == old(pendingWakeup)[old(current) := false]
      ensures blocks ==> Abs() == LeaveHead(old(Abs())) && blocked == [old(current)] + old(blocked)
      ensures blocks ==> old(current) < |waitChan| && waitChan[old(current)] == chan
      ensures wakeupTick == old(wakeupTick)
    {
      hide Links, Without, States, OnCpu, TailsFull, Covers;
      SoleHead();
      SizedFacts();
      if pendingWakeup[current] {
        pendingWakeup := pendingWakeup[current := false];
        return false;
      }
      BlockCurrent(chan, wakeupTick[current]);
      return true;
    }

    /** What a thread does first when it gets the CPU back inside `Block` or `BlockTimeout`: a wakeup that
        ended the wait is not pending any more. With a timeout it reports whether it was woken in time. */
    method Resume(timeoutMs: nat, timed: bool) returns (woken: bool)
      requires Valid() && current > 0
      modifies this`pendingWakeup, this`wakeupTick
      ensures Valid() && Abs() == old(Abs()) && current < |pendingWakeup| && !pendingWakeup[current]
      ensures current < |old(wakeupTick)| && woken == !(timed && timeoutMs > 0 && old(wakeupTick)[current] == 0)
      ensures wakeupTick == if timed && woken then old(wakeupTick)[current := 0] else old(wakeupTick)
    {
      hide Links, States, OnCpu, TailsFull, Covers;
      SoleHead();
      SizedFacts();
      pendingWakeup := pendingWakeup[current := false];
      if timed {
        if timeoutMs > 0 && wakeupTick[current] == 0 {
          return false;
        }
        wakeupTick := wakeupTick[current := 0];
      }
      return true;
    }

    /** Returns false when a wakeup was already pending and the thread goes on; otherwise the thread
        blocks until it is woken or, with a timeout, until its tick comes. */
    method BlockTimeout(chan: int, timeoutMs: nat, now: nat) returns (blocks: bool)
      requires Valid() && current > 0 && timeoutMs < UINT32
      modifies this`next, this`state, this`slice, this`onCpu, this`head, this`tail, this`current, this`runq,
               this`nrRunning, this`blockedList, this`blocked, this`waitChan, this`wakeupTick, this`pendingWakeup
      ensures Valid() && old(current) < |old(pendingWakeup)| && blocks == !old(pendingWakeup)[old(current)]
      ensures !blocks ==> Abs() == old(Abs()) && blocked == old(blocked) && !pendingWakeup[current]
      ensures blocks ==> Abs() == LeaveHead(old(Abs())) && blocked == [old(current)] + old(blocked)
      ensures blocks ==> old(current) < |wakeupTick| &&
                         wakeupTick[old(current)] == if timeoutMs == 0 then 0 else now + TimeoutTicks(timeoutMs)
      ensures blocks ==> old(current) < |waitChan| && waitChan[old(current)] == chan
    {
      hide Linked, Without, States, OnCpu, TailsFull, Covers, Apart;
      SoleHead();
      if pendingWakeup[current] {
        pendingWakeup := pendingWakeup[current := false];
        return false;
      }
      var wakeAt := 0;
      if timeoutMs > 0 {
        wakeAt := now + TimeoutTicks(timeoutMs);
      }
      BlockCurrent(chan, wakeAt);
      return true;
    }

    method SleepTicks(ticks: nat, now: nat)
      requires Valid() && current > 0
      modifies this`next, this`state, this`slice, this`onCpu, this`head, this`tail, this`current, this`runq,
               this`nrRunning, this`blockedList, this`blocked, this`waitChan, this`wakeupTick
      ensures Valid()
      ensures ticks == 0 ==> Abs() == old(Abs()) && blocked == old(blocked)
      ensures ticks > 0 ==> Abs() == LeaveHead(old(Abs())) && blocked == [old(current)] + old(blocked)
      ensures ticks > 0 ==> 0 < old(current) < |wakeupTick| == |waitChan|
                            && wakeupTick[old(current)] == now + ticks && waitChan[old(current)] == old(current)
    {
      hide Valid, Abs, LeaveHead;
      if ticks > 0 {
        BlockCurrent(current, now + ticks);
      }
    }

    /** What a thread does first when it gets the CPU back after a sleep. */
    method EndSleep()
      requires Valid() && current > 0
      modifies this`wakeupTick
      ensures Valid() && current < |old(wakeupTick)| && wakeupTick == old(wakeupTick)[current := 0]
    {
      hide Links, States, OnCpu, TailsFull, Covers;
      SoleHead();
      SizedFacts();
      wakeupTick := wakeupTick[current := 0];
    }

    // ------------------------------------------------------------------- waking

    /** Unlinks thread `t`, at position `k` after `prev`, from the list `s` that starts at `first`. */
    method UnlinkAt(first: int, prev: int, t: nat, ghost s: seq<nat>, ghost k: nat)
      returns (first': int, ghost s': seq<nat>)
      requires Linked(next, first, s) && Distinct(s) && k < |s| && s[k] == t
      requires prev == if k == 0 then NULL else s[k - 1]
      modifies this`next
      ensures Linked(next, first', s') && |next| == |old(next)|
      ensures s' == s[..k] + s[k + 1..] && s' == Without(s, t)
      ensures forall x :: 0 <= x < |next| && x !in s ==> next[x] == old(next)[x]
    {
      hide Linked, Without;
      ListEnds(next, first, s);
      WithoutFacts(s, t, k);
      LinkedUnlink(next, first, s, k);
      first' := first;
      if prev != NULL {
        next := next[prev := next[t]];
      } else {
        first' := next[t];
      }
      next := next[t := NULL];
      s' := s[..k] + s[k + 1..];
    }

    method BlockedToQueue(prev: int, t: nat, ghost k: nat)
      requires Sized() && Links() && k < |blocked| && blocked[k] == t
      requires prev == if k == 0 then NULL else blocked[k - 1]
      modifies this`next, this`state, this`slice, this`head, this`tail, this`nrRunning, this`runq, this`blockedList,
               this`blocked
      ensures Sized() && Links() && runq == old(runq) + [t]
      ensures blocked == old(blocked)[..k] + old(blocked)[k + 1..] && blocked == Without(old(blocked), t)
      ensures t < |old(state)| == |old(slice)|
      ensures state == old(state)[t := Ready] && slice == old(slice)[t := CFG_DEF_TIME_SLICE]
    {
      hide Linked, Without, Distinct, Apart;
      ListEnds(next, blockedList, blocked);
      ApartFacts(runq, blocked, dead);
      WakeKeepsApart(runq, blocked, dead, t);
      blockedList, blocked := UnlinkAt(blockedList, prev, t, blocked, k);
      LinkedFrame(old(next), next, head, runq);
      LinkedFrame(old(next), next, zombieList, dead);
      ghost var n := next;
      RrEnqueue(t);
      LinkedFrame(n, next, blockedList, blocked);
      LinkedFrame(n, next, zombieList, dead);
    }

    /** Moves the blocked thread `t`, at position `k` after `prev`, to the end of the run queue. */
    method WakeAt(prev: int, t: nat, ghost k: nat)
      requires Valid() && k < |blocked| && blocked[k] == t
      requires prev == if k == 0 then NULL else blocked[k - 1]
      modifies this`next, this`state, this`slice, this`head, this`tail, this`nrRunning, this`runq, this`blockedList,
               this`blocked, this`waitChan
      ensures Valid() && t < |old(waitChan)| && waitChan == old(waitChan)[t := NULL]
      ensures Abs() == Enqueue(old(Abs()), t)
      ensures blocked == old(blocked)[..k] + old(blocked)[k + 1..] && blocked == Without(old(blocked), t)
    {
      hide Linked, Without, States, OnCpu, TailsFull, Covers, Distinct, Apart, SliceOfHead;
      ListEnds(next, blockedList, blocked);
      WakeKeeps(state, onCpu, current, slice, live, runq, blocked, dead, t);
      QueueHead();
      BlockedIsNotCurrent(t);
      BlockedToQueue(prev, t, k);
      waitChan := waitChan[t := NULL];
    }

    lemma BlockedIsNotCurrent(t: nat)
      requires Valid() && t in blocked
      ensures t != current
    {
    }

    /** Waking a thread that is not blocked changes no list. */
    method WakeupThread(t: nat)
      requires Valid() && t in live
      modifies this`next, this`state, this`slice, this`head, this`tail, this`nrRunning, this`runq, this`blockedList,
               this`blocked, this`waitChan, this`pendingWakeup
      ensures Valid() && t < |old(pendingWakeup)| && pendingWakeup == old(pendingWakeup)[t := true]
      ensures t < |old(waitChan)| && waitChan == old(waitChan)[t := NULL]
      ensures t in old(blocked) ==> Abs() == Enqueue(old(Abs()), t) && blocked == Without(old(blocked), t)
      ensures t !in old(blocked) ==>
                Abs() == old(Abs()) && blocked == old(blocked) && next == old(next) && state == old(state)
    {
      hide Links, Without, States, OnCpu, TailsFull, Covers, SliceOfHead, Enqueue;
      LiveInRange(t);
      ListFacts();
      var prev, curr := NULL, blockedList;
      ghost var k := 0;
      pendingWakeup := pendingWakeup[t := true];
      while curr != NULL
        invariant k <= |blocked| && curr == At(blocked, k) && prev == (if k == 0 then NULL else blocked[k - 1])
        invariant forall i :: 0 <= i < k ==> blocked[i] != t
        invariant Valid() && Abs() == old(Abs()) && blocked == old(blocked) && next == old(next) && state == old(state)
        invariant pendingWakeup == old(pendingWakeup)[t := true] && waitChan == old(waitChan)
        decreases |blocked| - k
      {
        if curr == t {
          WakeAt(prev, t, k);
          return;
        }
        prev := curr;
        curr := next[curr];
        k := k + 1;
      }
      waitChan := waitChan[t := NULL];
    }

    lemma LiveInRange(t: nat)
      requires Lists() && t in live
      ensures 0 < t < |next|
    {
    }

    /** Wakes every blocked thread that meets the condition, in list order. */
    method WakeMatching(c: Condition)
      requires Valid()
      modifies this`next, this`state, this`slice, this`head, this`tail, this`nrRunning, this`runq, this`blockedList,
               this`blocked, this`waitChan, this`wakeupTick
      ensures Valid()
      ensures Abs() == EnqueueAll(old(Abs()), Select(c, old(wakeupTick), old(waitChan), old(blocked), true))
      ensures blocked == Select(c, old(wakeupTick), old(waitChan), old(blocked), false)
      ensures Rung(c, Select(c, old(wakeupTick), old(waitChan), old(blocked), true), old(wakeupTick), old(waitChan),
                   wakeupTick, waitChan)
    {
      hide Valid, Select, Meets, Enqueue, EnqueueAll, Unseen, Abs, Rung;
      ghost var wakes, chans := wakeupTick, waitChan;
      var prev, curr := NULL, blockedList;
      ghost var kept, woken, rest := [], [], blocked;
      EnqueueNone(Abs());
      RungNone(c, wakes, chans);
      WalkStart();
      while curr != NULL
        invariant Valid() && Unseen(rest, wakeupTick, waitChan, wakes, chans) && blocked == kept + rest
        invariant kept + Select(c, wakes, chans, rest, false) == Select(c, wakes, chans, old(blocked), false)
        invariant woken + Select(c, wakes, chans, rest, true) == Select(c, wakes, chans, old(blocked), true)
        invariant Abs() == EnqueueAll(old(Abs()), woken) && Rung(c, woken, wakes, chans, wakeupTick, waitChan)
        invariant curr == At(rest, 0) && prev == (if kept == [] then NULL else kept[|kept| - 1])
        decreases |rest|
      {
        ghost var ticks, chan := wakeupTick, waitChan;
        var hit, after := WakeOrSkip(c, prev, curr, kept, rest, wakes, chans);
        SelectStep(c, wakes, chans, kept, woken, rest);
        EnqueueOneMore(old(Abs()), woken, rest[0]);
        if hit {
          RungMore(c, woken, wakes, chans, ticks, chan, rest[0]);
          woken := woken + [rest[0]];
        } else {
          prev := curr;
          kept := kept + [rest[0]];
        }
        curr, rest := after, rest[1..];
      }
      SelectEmpty(c, wakes, chans);
      assert rest == [] && woken + [] == woken;
    }

    /** One round of the wakeup loop at thread `t`, the first of `rest`. */
    method WakeOrSkip(c: Condition, prev: int, t: nat, ghost kept: seq<nat>, ghost rest: seq<nat>,
                      ghost wakes: seq<nat>, ghost chans: seq<int>)
      returns (hit: bool, after: int)
      requires Valid() && blocked == kept + rest && rest != [] && rest[0] == t
      requires Unseen(rest, wakeupTick, waitChan, wakes, chans) && prev == if kept == [] then NULL else kept[|kept| - 1]
      modifies this`next, this`state, this`slice, this`head, this`tail, this`nrRunning, this`runq, this`blockedList,
               this`blocked, this`waitChan, this`wakeupTick
      ensures Valid() && after == At(rest, 1) && Unseen(rest[1..], wakeupTick, waitChan, wakes, chans)
      ensures t < |wakes| && t < |chans| && hit == Meets(c, wakes[t], chans[t])
      ensures blocked == (if hit then kept else kept + [t]) + rest[1..]
      ensures Abs() == if hit then Enqueue(old(Abs()), t) else old(Abs())
      ensures t < |old(wakeupTick)| && t < |old(waitChan)|
      ensures wakeupTick == if hit && c.DueBy? then old(wakeupTick)[t := 0] else old(wakeupTick)
      ensures waitChan == if hit then old(waitChan)[t := NULL] else old(waitChan)
    {
      hide Valid, Without, Distinct, Meets, Abs, Enqueue, Unseen;
      ghost var k := |kept|;
      SplitAt(kept, rest);
      WalkFacts(kept, rest);
      RestDiffers(kept, rest);
      after := next[t];
      hit := Meets(c, wakeupTick[t], waitChan[t]);
      if hit {
        WakeAt(prev, t, k);
        if c.DueBy? {
          ClearWakeupTick(t);
        }
      }
      UnseenRest(rest, old(wakeupTick), old(waitChan), wakeupTick, waitChan, wakes, chans);
    }

    // --------------------------------------------------------- the timer, spawn, exit

    method RrTick(t: nat) returns (resched: bool)
      requires t < |slice|
      modifies this`slice
      ensures slice == old(slice)[t := if old(slice)[t] == 0 then 0 else old(slice)[t] - 1]
      ensures resched <==> old(slice)[t] == 1
    {
      if slice[t] == 0 {
        return false;
      }
      slice := slice[t := slice[t] - 1];
      return slice[t] == 0;
    }

    /** The timer interrupt: wakes the sleepers that are due, then runs the round-robin policy. */
    method Tick(now: nat)
      requires Valid()
      modifies this`next, this`state, this`slice, this`head, this`tail, this`nrRunning, this`runq, this`blockedList,
               this`blocked, this`waitChan, this`wakeupTick, this`onCpu, this`current
      ensures Valid()
      ensures var woken := Select(DueBy(now), old(wakeupTick), old(waitChan), old(blocked), true);
              Abs() == RoundRobin.Tick(old(Abs()), woken)
      ensures blocked == Select(DueBy(now), old(wakeupTick), old(waitChan), old(blocked), false)
      ensures Rung(DueBy(now), Select(DueBy(now), old(wakeupTick), old(waitChan), old(blocked), true), old(wakeupTick),
                   old(waitChan), wakeupTick, waitChan)
    {
      hide Valid, Select, EnqueueAll, RoundRobin.Tick, Rung;
      TickAfterWake(Abs(), Select(DueBy(now), wakeupTick, waitChan, blocked, true));
      WakeMatching(DueBy(now));
      PolicyTick();
    }

    method PolicyTick()
      requires Valid()
      modifies this`next, this`state, this`slice, this`head, this`tail, this`runq, this`onCpu, this`current
      ensures Valid() && Abs() == RoundRobin.Tick(old(Abs()), [])
    {
      hide Linked, Without, States, OnCpu, Covers, Apart, Distinct;
      ListEnds(next, head, runq);
      QueueHead();
      assert runq + [] == runq;
      if current == NULL {
        var first := PickAndRotate();
        if first != NULL {
          SwitchTo(first);
        }
      } else if current == IDLE {
        if nrRunning > 0 {
          Schedule();
        }
      } else {
        TickRunning();
      }
    }

    /** A tick while an ordinary thread runs: its slice goes down, and at zero the next thread is picked. */
    method TickRunning()
      requires Valid() && current > 0
      modifies this`next, this`state, this`slice, this`head, this`tail, this`runq, this`onCpu, this`current
      ensures Valid() && Abs() == RoundRobin.Tick(old(Abs()), [])
    {
      hide Linked, Without, States, OnCpu, Covers, Apart, Distinct;
      QueueHead();
      SoleHead();
      assert runq + [] == runq;
      var resched := RrTick(current);
      if resched {
        Schedule();
      }
    }

    /** `sched_spawn` with the freshly allocated thread `t`, which is on no list. */
    method Spawn(t: nat, memory: bool) returns (ok: bool)
      requires Valid() && 0 < t < |next| && Unlisted(t, runq, blocked, dead)
      modifies this`next, this`state, this`slice, this`head, this`tail, this`nrRunning, this`runq, this`live,
               this`wakeupTick, this`waitChan, this`pendingWakeup, this`isDetached, this`hasBeenJoined
      ensures Valid() && ok == memory && live == (if ok then old(live) + {t} else old(live))
      ensures Abs() == if ok then Enqueue(old(Abs()), t) else old(Abs())
      ensures ok ==> IsNew(t)
    {
      hide Links, Sized, Covers, States, OnCpu, TailsFull, SliceOfHead;
      ok := memory;
      if !ok {
        return;
      }
      SizedFacts();
      SpawnKeeps(state, onCpu, current, slice, live, runq, blocked, dead, t);
      QueueHead();
      ResetFields(t);
      live := live + {t};
      FreshToQueue(t);
    }

    /** Nothing is known about a new thread: it awaits no tick and no channel, has no wakeup pending, and is
        neither detached nor joined. */
    ghost predicate IsNew(t: nat)
      reads this`wakeupTick, this`waitChan, this`pendingWakeup, this`isDetached, this`hasBeenJoined
    {
      && t < |wakeupTick| && t < |waitChan| && t < |pendingWakeup| && t < |isDetached| && t < |hasBeenJoined|
      && wakeupTick[t] == 0 && waitChan[t] == NULL && !pendingWakeup[t] && !isDetached[t] && !hasBeenJoined[t]
    }

    method ResetFields(t: nat)
      requires Sized() && t < |next|
      modifies this`wakeupTick, this`waitChan, this`pendingWakeup, this`isDetached, this`hasBeenJoined
      ensures Sized() && IsNew(t)
    {
      wakeupTick, waitChan, pendingWakeup := wakeupTick[t := 0], waitChan[t := NULL], pendingWakeup[t := false];
      isDetached, hasBeenJoined := isDetached[t := false], hasBeenJoined[t := false];
    }

    method FreshToQueue(t: nat)
      requires Sized() && Links() && 0 < t < |next| && Unlisted(t, runq, blocked, dead)
      modifies this`next, this`state, this`slice, this`head, this`tail, this`nrRunning, this`runq
      ensures Sized() && Links() && runq == old(runq) + [t] && t < |old(state)| == |old(slice)|
      ensures state == old(state)[t := Ready] && slice == old(slice)[t := CFG_DEF_TIME_SLICE]
    {
      hide Linked, Distinct, Apart;
      AppendKeeps(runq, blocked, dead, t);
      ghost var n := next;
      RrEnqueue(t);
      LinkedFrame(n, next, blockedList, blocked);
      LinkedFrame(n, next, zombieList, dead);
    }

    /** A thread is forced out: it leaves whichever list it is on for the zombie list. The running thread
        is not put on any list, so that the lists are right afterwards iff another thread is meant. The
        kernel's only caller passes over the current thread, so on one CPU that is always so. */
    method ForceExit(t: nat)
      requires Valid() && t in live
      modifies this`next, this`state, this`head, this`tail, this`nrRunning, this`runq, this`blockedList, this`blocked,
               this`zombieList, this`dead, this`isDetached
      ensures Valid() <==> t != current
      ensures t != current ==>
                && Abs() == old(Abs()).(threads := Without(old(runq), t)) && blocked == Without(old(blocked), t)
                && dead == (if t in old(dead) then old(dead) else [t] + old(dead))
                && t < |old(isDetached)|
                && isDetached == if t in old(dead) then old(isDetached) else old(isDetached)[t := true]
      ensures t == current ==> Links() && Unlisted(t, runq, blocked, dead)
                               && t < |state| && state[t] == Exited && t < |isDetached| && isDetached[t]
    {
      hide Links, Sized, Without, States, OnCpu, TailsFull, Apart, SliceOfHead;
      LiveInRange(t);
      SizedFacts();
      if t == current {
        RunningIsAlive();
        MarkExited(t);
        ForceUnlink(t);
        return;
      }
      Whereabouts(t);
      if state[t] == Exited {
        return;
      }
      ForceOut(t);
    }

    lemma RunningIsAlive()
      requires Valid() && current > 0
      ensures current !in dead && current < |state| && state[current] != Exited && onCpu[current]
    {
    }

    method ForceOut(t: nat)
      requires Valid() && t in live && t != current && t < |next| && t !in dead && !onCpu[t]
      modifies this`next, this`state, this`head, this`tail, this`nrRunning, this`runq, this`blockedList, this`blocked,
               this`zombieList, this`dead, this`isDetached
      ensures Valid() && Abs() == old(Abs()).(threads := Without(old(runq), t))
      ensures blocked == Without(old(blocked), t) && dead == [t] + old(dead)
      ensures t < |old(isDetached)| && isDetached == old(isDetached)[t := true]
    {
      hide Links, Sized, Without, States, OnCpu, TailsFull, Covers, Apart, SliceOfHead;
      ListFacts();
      SizedFacts();
      ForceKeeps(state, onCpu, current, slice, live, runq, blocked, dead, t);
      QueueHead();
      MarkExited(t);
      ForceUnlink(t);
      ZombiePush(t);
    }

    lemma SizedFacts()
      requires Sized()
      ensures 0 < |next| == |state| == |slice| == |onCpu| == |isDetached|
      ensures |next| == |pendingWakeup| == |wakeupTick| == |waitChan|
    {
    }

    method MarkExited(t: nat)
      requires Sized() && t < |next|
      modifies this`state, this`isDetached
      ensures Sized() && t < |old(state)| && state == old(state)[t := Exited]
      ensures t < |old(isDetached)| && isDetached == old(isDetached)[t := true]
    {
      state := state[t := Exited];
      isDetached := isDetached[t := true];
    }

    lemma Whereabouts(t: nat)
      requires Valid() && t in live && t != current && t < |next|
      ensures state[t] == Exited <==> t in dead
      ensures !onCpu[t] && (t in dead ==> Without(runq, t) == runq && Without(blocked, t) == blocked)
    {
      if t in dead {
        WithoutAbsent(runq, t);
        WithoutAbsent(blocked, t);
      }
    }

    /** Takes `t` off the run queue and off the blocked list. */
    method ForceUnlink(t: nat)
      requires Sized() && Links() && t < |next| && t !in dead
      modifies this`next, this`head, this`tail, this`nrRunning, this`runq, this`blockedList, this`blocked
      ensures Sized() && Links() && |next| == |old(next)| && t !in runq && t !in blocked
      ensures runq == Without(old(runq), t) && blocked == Without(old(blocked), t)
    {
      hide Linked, Without, Distinct;
      ApartFacts(runq, blocked, dead);
      WithoutFacts(runq, t, 0);
      WithoutFacts(blocked, t, 0);
      RrDequeue(t);
      LinkedFrame(old(next), next, blockedList, blocked);
      LinkedFrame(old(next), next, zombieList, dead);
      ghost var n := next;
      BlockedUnlink(t);
      LinkedFrame(n, next, head, runq);
      LinkedFrame(n, next, zombieList, dead);
    }

    method BlockedUnlink(t: nat)
      requires Linked(next, blockedList, blocked) && Distinct(blocked)
      modifies this`next, this`blockedList, this`blocked
      ensures Linked(next, blockedList, blocked) && |next| == |old(next)| && blocked == Without(old(blocked), t)
      ensures forall x :: 0 <= x < |next| && x !in old(blocked) ==> next[x] == old(next)[x]
    {
      hide Linked, Without;
      var prev, curr := NULL, blockedList;
      ghost var k := 0;
      ListEnds(next, blockedList, blocked);
      while curr != NULL
        invariant k <= |blocked| && curr == At(blocked, k) && prev == (if k == 0 then NULL else blocked[k - 1])
        invariant forall i :: 0 <= i < k ==> blocked[i] != t
        invariant Linked(next, blockedList, blocked) && blocked == old(blocked) && next == old(next)
        decreases |blocked| - k
      {
        if curr == t {
          blockedList, blocked := UnlinkAt(blockedList, prev, t, blocked, k);
          return;
        }
        LinkedAt(next, blockedList, blocked, k);
        prev := curr;
        curr := next[curr];
        k := k + 1;
      }
      WithoutAbsent(blocked, t);
    }

    method ZombiePush(t: nat)
      requires Sized() && Links() && 0 < t < |next| && t !in runq && t !in blocked && t !in dead
      modifies this`next, this`zombieList, this`dead
      ensures Sized() && Links() && dead == [t] + old(dead)
    {
      hide Linked;
      LinkedPush(next, zombieList, dead, t);
      LinkedFrame(next, next[t := zombieList], head, runq);
      LinkedFrame(next, next[t := zombieList], blockedList, blocked);
      next := next[t := zombieList];
      zombieList := t;
      dead := [t] + dead;
    }

    /** Frees the zombies that are detached or joined. */
    method CleanupZombies()
      requires Valid()
      modifies this`next, this`zombieList, this`dead, this`live
      ensures Valid() && Abs() == old(Abs())
      ensures dead == Reap(isDetached, hasBeenJoined, old(dead), false)
      ensures live == old(live) - Elements(Reap(isDetached, hasBeenJoined, old(dead), true))
    {
      hide Valid, Reap, Abs, Elements, Reaping;
      var prev, curr := NULL, zombieList;
      ghost var kept, freed, rest := [], [], dead;
      ZombieFacts();
      ReapingStarts(isDetached, hasBeenJoined, dead, live);
      while curr != NULL
        invariant Valid() && dead == kept + rest && Abs() == old(Abs())
        invariant Reaping(isDetached, hasBeenJoined, old(dead), kept, freed, rest, old(live), live)
        invariant curr == At(rest, 0) && prev == (if kept == [] then NULL else kept[|kept| - 1])
        decreases |rest|
      {
        var free, after := ReapOrKeep(prev, curr, kept, rest);
        ReapingGoesOn(isDetached, hasBeenJoined, old(dead), kept, freed, rest, old(live), live);
        if free {
          freed := freed + [rest[0]];
        } else {
          prev := curr;
          kept := kept + [rest[0]];
        }
        curr, rest := after, rest[1..];
      }
      ReapingEnds(isDetached, hasBeenJoined, old(dead), kept, freed, old(live), live);
      assert rest == [] && kept + [] == kept;
    }

    /** One round of the cleanup loop at zombie `z`, the first of `rest`. */
    method ReapOrKeep(prev: int, z: nat, ghost kept: seq<nat>, ghost rest: seq<nat>) returns (free: bool, after: int)
      requires Valid() && dead == kept + rest && rest != [] && rest[0] == z
      requires prev == if kept == [] then NULL else kept[|kept| - 1]
      modifies this`next, this`zombieList, this`dead, this`live
      ensures Valid() && Abs() == old(Abs()) && after == At(rest, 1)
      ensures z < |isDetached| == |hasBeenJoined| && free == (isDetached[z] || hasBeenJoined[z])
      ensures dead == (if free then kept else kept + [z]) + rest[1..]
      ensures live == if free then old(live) - {z} else old(live)
    {
      hide Valid, Abs;
      SplitAt(kept, rest);
      ZombieFacts();
      assert dead[|kept|] == z && At(dead, |kept| + 1) == At(rest, 1);
      after := next[z];
      free := isDetached[z] || hasBeenJoined[z];
      if free {
        FreeZombie(prev, z, |kept|);
      }
    }

    /** Where a walk along a list stands. */
    static lemma SplitAt(kept: seq<nat>, rest: seq<nat>)
      requires rest != []
      ensures var s, k := kept + rest, |kept|;
              s[k] == rest[0] && s[..k] == kept && s[k + 1..] == rest[1..] && kept + [rest[0]] + rest[1..] == s
              && (kept != [] ==> s[k - 1] == kept[k - 1])
    {
    }

    lemma ZombieFacts()
      requires Valid()
      ensures zombieList == At(dead, 0) && |isDetached| == |hasBeenJoined| == |next|
      ensures forall k: nat :: k < |dead| ==> dead[k] < |next| && next[dead[k]] == At(dead, k + 1)
    {
      ListFacts();
    }

    method ZombieUnlink(prev: int, z: nat, ghost k: nat)
      requires Sized() && Links() && k < |dead| && dead[k] == z && prev == if k == 0 then NULL else dead[k - 1]
      modifies this`next, this`zombieList, this`dead
      ensures Sized() && Links() && dead == old(dead)[..k] + old(dead)[k + 1..] && dead == Without(old(dead), z)
    {
      hide Linked, Without, Distinct;
      ApartFacts(runq, blocked, dead);
      WithoutFacts(dead, z, k);
      zombieList, dead := UnlinkAt(zombieList, prev, z, dead, k);
      LinkedFrame(old(next), next, head, runq);
      LinkedFrame(old(next), next, blockedList, blocked);
    }

    method FreeZombie(prev: int, z: nat, ghost k: nat)
      requires Valid() && k < |dead| && dead[k] == z
      requires prev == if k == 0 then NULL else dead[k - 1]
      modifies this`next, this`zombieList, this`dead, this`live
      ensures Valid() && Abs() == old(Abs()) && dead == old(dead)[..k] + old(dead)[k + 1..] && live == old(live) - {z}
    {
      hide Links, Sized, Without, OnCpu, TailsFull, Apart, Covers, States, SliceOfHead;
      ListFacts();
      assert dead[k] in dead;
      FreeKeeps(state, live, runq, blocked, dead, z);
      ZombieUnlink(prev, z, k);
      live := live - {z};
    }

    /** Every live thread is on exactly one list, in the state that goes with it, and the queue is a
        round-robin queue. */
    lemma ExactlyOneList(t: nat)
      requires Valid()
      ensures t in live <==> t in runq || t in blocked || t in dead
      ensures !(t in runq && t in blocked) && !(t in runq && t in dead) && !(t in blocked && t in dead)
      ensures t in live ==> t < |state|
      ensures t in live ==> (t in blocked <==> state[t] == Blocked) && (t in dead <==> state[t] == Exited)
      ensures nrRunning == |runq| && RoundRobin.Valid(Abs())
    {
    }

    lemma WalkStart()
      requires Valid()
      ensures blockedList == At(blocked, 0) && Unseen(blocked, wakeupTick, waitChan, wakeupTick, waitChan)
    {
      ListFacts();
    }

    lemma WalkFacts(kept: seq<nat>, rest: seq<nat>)
      requires Valid() && blocked == kept + rest && rest != []
      ensures rest[0] < |next| == |wakeupTick| == |waitChan| && next[rest[0]] == At(rest, 1) && Distinct(blocked)
    {
      CurrentNext(|kept|);
      assert blocked[|kept|] == rest[0] && At(blocked, |kept| + 1) == At(rest, 1);
    }

    method ClearWakeupTick(t: nat)
      requires Valid() && t < |wakeupTick|
      modifies this`wakeupTick
      ensures Valid() && wakeupTick == old(wakeupTick)[t := 0]
    {
      wakeupTick := wakeupTick[t := 0];
    }

    lemma CurrentNext(k: nat)
      requires Links() && k < |blocked|
      ensures blocked[k] < |next| && next[blocked[k]] == At(blocked, k + 1) && Distinct(blocked)
    {
    }
  }

  /** The conditions two wakeup loops look for: a channel, or a wakeup tick that has come. */
  datatype Condition = OnChannel(chan: int) | DueBy(now: nat)

  predicate Meets(c: Condition, wakeAt: nat, chan: int) {
    match c
    case OnChannel(ch) => chan == ch
    case DueBy(now) => wakeAt != 0 && now >= wakeAt
  }

  /** The threads of `s` that meet the condition, or those that do not, in order. */
  ghost function Select(c: Condition, wakes: seq<nat>, chans: seq<int>, s: seq<nat>, meets: bool): seq<nat> {
    if s == [] then []
    else
      var x, rest := s[0], Select(c, wakes, chans, s[1..], meets);
      if (x < |wakes| && x < |chans| && Meets(c, wakes[x], chans[x])) == meets then [x] + rest else rest
  }

  lemma SelectEmpty(c: Condition, wakes: seq<nat>, chans: seq<int>)
    ensures Select(c, wakes, chans, [], true) == Select(c, wakes, chans, [], false) == []
  {
  }

  lemma SelectStep(c: Condition, wakes: seq<nat>, chans: seq<int>, kept: seq<nat>, woken: seq<nat>, s: seq<nat>)
    requires s != [] && s[0] < |wakes| && s[0] < |chans|
    ensures var hit := Meets(c, wakes[s[0]], chans[s[0]]);
            && kept + Select(c, wakes, chans, s, false) ==
               (if hit then kept else kept + [s[0]]) + Select(c, wakes, chans, s[1..], false)
            && woken + Select(c, wakes, chans, s, true) ==
               (if hit then woken + [s[0]] else woken) + Select(c, wakes, chans, s[1..], true)
  {
    hide Meets;
  }

  /** The zombies of `s` that may be freed, or those that may not. */
  ghost function Reap(detached: seq<bool>, joined: seq<bool>, s: seq<nat>, free: bool): seq<nat> {
    if s == [] then []
    else
      var x, rest := s[0], Reap(detached, joined, s[1..], free);
      if (x < |detached| && x < |joined| && (detached[x] || joined[x])) == free then [x] + rest else rest
  }

  ghost function Elements(s: seq<nat>): set<nat> {
    set x | x in s
  }

  lemma ElementsOfNone()
    ensures Elements([]) == {}
  {
  }

  lemma ElementsGrow(s: seq<nat>, x: nat)
    ensures Elements(s + [x]) == Elements(s) + {x}
  {
  }

  lemma ReapNone(detached: seq<bool>, joined: seq<bool>)
    ensures Reap(detached, joined, [], true) == Reap(detached, joined, [], false) == []
  {
  }

  /** How far a cleanup has got: `kept` and `freed` are what it decided on before `rest`. */
  ghost predicate Reaping(detached: seq<bool>, joined: seq<bool>, all: seq<nat>, kept: seq<nat>, freed: seq<nat>,
                          rest: seq<nat>, before: set<nat>, live: set<nat>) {
    && kept + Reap(detached, joined, rest, false) == Reap(detached, joined, all, false)
    && freed + Reap(detached, joined, rest, true) == Reap(detached, joined, all, true)
    && live == before - Elements(freed)
  }

  lemma ReapingStarts(detached: seq<bool>, joined: seq<bool>, all: seq<nat>, live: set<nat>)
    ensures Reaping(detached, joined, all, [], [], all, live, live)
  {
    hide Reap, Elements;
    ElementsOfNone();
  }

  lemma ReapingGoesOn(detached: seq<bool>, joined: seq<bool>, all: seq<nat>, kept: seq<nat>, freed: seq<nat>,
                      rest: seq<nat>, before: set<nat>, live: set<nat>)
    requires rest != [] && rest[0] < |detached| && rest[0] < |joined|
    requires var hit := detached[rest[0]] || joined[rest[0]];
             exists l :: Reaping(detached, joined, all, kept, freed, rest, before, l)
                         && live == if hit then l - {rest[0]} else l
    ensures var hit := detached[rest[0]] || joined[rest[0]];
            Reaping(detached, joined, all, if hit then kept else kept + [rest[0]],
                    if hit then freed + [rest[0]] else freed, rest[1..], before, live)
  {
    hide Reap, Elements;
    ReapStep(detached, joined, kept, freed, rest);
    ElementsGrow(freed, rest[0]);
  }

  lemma ReapingEnds(detached: seq<bool>, joined: seq<bool>, all: seq<nat>, kept: seq<nat>, freed: seq<nat>,
                    before: set<nat>, live: set<nat>)
    requires Reaping(detached, joined, all, kept, freed, [], before, live)
    ensures kept == Reap(detached, joined, all, false) && live == before - Elements(Reap(detached, joined, all, true))
  {
    hide Elements;
    ReapNone(detached, joined);
    assert kept + [] == kept && freed + [] == freed;
  }

  lemma ReapStep(detached: seq<bool>, joined: seq<bool>, kept: seq<nat>, freed: seq<nat>, s: seq<nat>)
    requires s != [] && s[0] < |detached| && s[0] < |joined|
    ensures var hit := detached[s[0]] || joined[s[0]];
            && kept + Reap(detached, joined, s, false) ==
               (if hit then kept else kept + [s[0]]) + Reap(detached, joined, s[1..], false)
            && freed + Reap(detached, joined, s, true) ==
               (if hit then freed + [s[0]] else freed) + Reap(detached, joined, s[1..], true)
  {
  }

  lemma RestDiffers(kept: seq<nat>, rest: seq<nat>)
    requires Distinct(kept + rest) && rest != []
    ensures rest[0] in rest && forall x :: x in rest[1..] ==> x in rest && x != rest[0]
  {
    var s := kept + rest;
    assert s[|kept|] == rest[0];
    forall x | x in rest[1..] ensures x != rest[0] {
      var j :| 1 <= j < |rest| && rest[j] == x;
      assert s[|kept| + j] == x;
    }
  }

  lemma TickAfterWake(q: Queue, due: seq<nat>)
    ensures RoundRobin.Tick(EnqueueAll(q, due), []) == RoundRobin.Tick(q, due)
  {
    assert q.threads + due + [] == q.threads + due;
  }

  lemma EnqueueNone(q: Queue)
    ensures EnqueueAll(q, []) == q
  {
    assert q.threads + [] == q.threads;
  }

  lemma EnqueueOneMore(q: Queue, woken: seq<nat>, t: nat)
    ensures Enqueue(EnqueueAll(q, woken), t) == EnqueueAll(q, woken + [t])
  {
    assert q.threads + woken + [t] == q.threads + (woken + [t]);
  }

  const CFG_SCHED_HZ := 100

  /** Milliseconds to ticks, rounded up, at least one, in 32-bit arithmetic. */
  function TimeoutTicks(ms: nat): (ticks: nat)
    ensures ticks > 0
  {
    var ticks := (ms * CFG_SCHED_HZ + 999) % UINT32 / 1000;
    if ticks == 0 then 1 else ticks
  }

  /** A blocked thread becomes ready at the end of the run queue with a full slice. */
  lemma WakeKeeps(state: seq<ThreadState>, onCpu: seq<bool>, current: int, slice: seq<nat>, live: set<nat>,
                  runq: seq<nat>, blocked: seq<nat>, dead: seq<nat>, t: nat)
    requires t in blocked && t < |state| == |slice| && Apart(runq, blocked, dead)
    requires States(state, runq, blocked, dead) && OnCpu(state, onCpu, current) && TailsFull(slice, runq)
    requires Covers(live, runq, blocked, dead)
    ensures States(state[t := Ready], runq + [t], Without(blocked, t), dead)
    ensures OnCpu(state[t := Ready], onCpu, current) && TailsFull(slice[t := CFG_DEF_TIME_SLICE], runq + [t])
    ensures Covers(live, runq + [t], Without(blocked, t), dead)
    ensures SliceOfHead(slice[t := CFG_DEF_TIME_SLICE], runq + [t]) == SliceOfHead(slice, runq)
  {
    hide Without;
    assert runq != [] ==> runq[0] in runq;
    WithoutFacts(blocked, t, 0);
    assert forall x :: x in runq + [t] <==> x in runq || x == t;
  }

  lemma SpawnKeeps(state: seq<ThreadState>, onCpu: seq<bool>, current: int, slice: seq<nat>, live: set<nat>,
                   runq: seq<nat>, blocked: seq<nat>, dead: seq<nat>, t: nat)
    requires t < |state| == |slice| && t !in runq && t !in blocked && t !in dead
    requires States(state, runq, blocked, dead) && OnCpu(state, onCpu, current) && TailsFull(slice, runq)
    requires Covers(live, runq, blocked, dead)
    ensures States(state[t := Ready], runq + [t], blocked, dead)
    ensures OnCpu(state[t := Ready], onCpu, current) && TailsFull(slice[t := CFG_DEF_TIME_SLICE], runq + [t])
    ensures Covers(live + {t}, runq + [t], blocked, dead)
    ensures SliceOfHead(slice[t := CFG_DEF_TIME_SLICE], runq + [t]) == SliceOfHead(slice, runq)
  {
    assert runq != [] ==> runq[0] in runq;
    assert forall x :: x in runq + [t] <==> x in runq || x == t;
  }

  /** A queued or blocked thread that is not current becomes a zombie. */
  lemma ForceKeeps(state: seq<ThreadState>, onCpu: seq<bool>, current: int, slice: seq<nat>, live: set<nat>,
                   runq: seq<nat>, blocked: seq<nat>, dead: seq<nat>, t: nat)
    requires t < |state| == |slice| && t in live && t !in dead && Apart(runq, blocked, dead) && t != current
    requires States(state, runq, blocked, dead) && OnCpu(state, onCpu, current) && TailsFull(slice, runq)
    requires Covers(live, runq, blocked, dead)
    ensures t > 0 && States(state[t := Exited], Without(runq, t), Without(blocked, t), [t] + dead)
    ensures OnCpu(state[t := Exited], onCpu, current) && TailsFull(slice, Without(runq, t))
    ensures Covers(live, Without(runq, t), Without(blocked, t), [t] + dead)
    ensures runq != [] && runq[0] != t ==> Without(runq, t) != [] && Without(runq, t)[0] == runq[0]
    ensures SliceOfHead(slice, Without(runq, t)) ==
            if runq != [] && runq[0] == t then CFG_DEF_TIME_SLICE else SliceOfHead(slice, runq)
  {
    WithoutFacts(runq, t, 0);
    WithoutFacts(blocked, t, 0);
    forall i | 1 <= i < |Without(runq, t)| && Without(runq, t)[i] < |slice|
      ensures slice[Without(runq, t)[i]] == CFG_DEF_TIME_SLICE
    {
      WithoutIndex(runq, t, i);
    }
  }

  lemma {:induction false} WithoutIndex(s: seq<nat>, t: nat, i: nat)
    requires i < |Without(s, t)|
    ensures (i < |s| && s[i] == Without(s, t)[i]) || (i + 1 < |s| && s[i + 1] == Without(s, t)[i])
  {
    if s[0] != t && i > 0 {
      WithoutIndex(s[1..], t, i - 1);
    }
  }

  /** The queue after the policy moved the running thread, if it is first, to the end. */
  ghost function Rotated(q: seq<nat>, current: int): seq<nat> {
    if q != [] && current == q[0] then q[1..] + [q[0]] else q
  }

  lemma ApartFacts(a: seq<nat>, b: seq<nat>, c: seq<nat>)
    requires Apart(a, b, c)
    ensures Distinct(a) && Distinct(b) && Distinct(c)
    ensures forall x :: x in a ==> x !in b && x !in c
    ensures forall x :: x in b ==> x !in c
  {
  }

  lemma WakeKeepsApart(a: seq<nat>, b: seq<nat>, c: seq<nat>, t: nat)
    requires Apart(a, b, c) && t in b
    ensures Apart(a + [t], Without(b, t), c)
    ensures forall x :: x in Without(b, t) <==> x in b && x != t
  {
    hide Without;
    MoveKeepsApart(b, a, t);
  }

  /** `t` leaves list `a` for the front of list `b` (or the end, which has the same elements). */
  lemma MoveKeepsApart(a: seq<nat>, b: seq<nat>, t: nat)
    requires Distinct(a) && Distinct(b) && t in a && forall x :: x in a ==> x !in b
    ensures Distinct(Without(a, t)) && Distinct([t] + b) && Distinct(b + [t])
    ensures forall x :: x in Without(a, t) <==> x in a && x != t
    ensures forall x :: x in [t] + b <==> x in b || x == t
    ensures forall x :: x in b + [t] <==> x in b || x == t
  {
    hide Without;
    WithoutFacts(a, t, 0);
  }

  lemma TailOfQueue(slice: seq<nat>, runq: seq<nat>)
    requires runq != [] && TailsFull(slice, runq) && Distinct(runq)
    ensures var t, q := runq[0], runq[1..];
            && Without(runq, t) == q && (forall x :: x in q ==> x != t) && (forall x :: x in runq <==> x == t || x in q)
            && TailsFull(slice, q) && SliceOfHead(slice, q) == CFG_DEF_TIME_SLICE
  {
    var t, q := runq[0], runq[1..];
    assert runq == [t] + q;
    forall i | 0 <= i < |q| && q[i] < |slice| ensures slice[q[i]] == CFG_DEF_TIME_SLICE {
      assert q[i] == runq[i + 1];
    }
  }

  /** The running head of the queue leaves it as `to`, for the blocked or the zombie list. */
  lemma HeadLeaves(state: seq<ThreadState>, onCpu: seq<bool>, slice: seq<nat>, live: set<nat>,
                   runq: seq<nat>, blocked: seq<nat>, dead: seq<nat>, to: ThreadState)
    requires runq != [] && runq[0] < |state| && Apart(runq, blocked, dead)
    requires States(state, runq, blocked, dead) && OnCpu(state, onCpu, runq[0]) && TailsFull(slice, runq)
    requires Covers(live, runq, blocked, dead) && (to == Blocked || to == Exited)
    ensures var t, q := runq[0], runq[1..];
            && Without(runq, t) == q && (q != [] ==> q[0] != t)
            && OnCpu(state[t := to], onCpu, t) && TailsFull(slice, q) && SliceOfHead(slice, q) == CFG_DEF_TIME_SLICE
            && (to == Blocked ==>
                  States(state[t := to], q, [t] + blocked, dead) && Covers(live, q, [t] + blocked, dead))
            && (to == Exited ==> States(state[t := to], q, blocked, [t] + dead) && Covers(live, q, blocked, [t] + dead))
  {
    hide TailsFull, SliceOfHead, Without, Distinct;
    var t, q := runq[0], runq[1..];
    TailOfQueue(slice, runq);
    assert q != [] ==> q[0] in q;
    assert t in runq;
    assert forall x :: x in [t] + blocked <==> x == t || x in blocked;
    assert forall x :: x in [t] + dead <==> x == t || x in dead;
  }

  lemma AppendKeeps(a: seq<nat>, b: seq<nat>, c: seq<nat>, t: nat)
    requires Apart(a, b, c) && t !in a && t !in b && t !in c && t != IDLE
    ensures Distinct(a) && Apart(a + [t], b, c)
    ensures forall x :: x in b || x in c ==> x != t && x !in a
  {
    assert forall x :: x in a + [t] <==> x in a || x == t;
  }

  lemma RotationKeeps(q: seq<nat>)
    requires Distinct(q) && q != []
    ensures Distinct(q[1..] + [q[0]]) && forall x :: x in q[1..] + [q[0]] <==> x in q
  {
    assert q == [q[0]] + q[1..];
  }
}
