/**
  The kernel pipe: a byte ring shared by one reader thread and one writer thread, with the lock
  dropped around every byte copied and with sleep and wakeup.

  The threads are program counters. One step is what a thread does between taking the pipe lock
  (or the scheduler lock) and releasing it. Other threads may close and open ends at any time.
  */
module Pipe {
  import opened Bytes

  const PIPE_BUF_SIZE := 4096
  const EFAULT := -14
  const EINVAL := -22
  const EPIPE := -32

  // ----------------------------------------------------------------- the ring

  datatype Ring = Ring(buf: seq<byte>, head: nat, tail: nat)

  predicate WellFormed(p: Ring) {
    |p.buf| == PIPE_BUF_SIZE && p.head < PIPE_BUF_SIZE && p.tail < PIPE_BUF_SIZE
  }

  function Used(p: Ring): (n: nat) {
    (p.tail - p.head + PIPE_BUF_SIZE) % PIPE_BUF_SIZE
  }

  function Free(p: Ring): int {
    PIPE_BUF_SIZE - 1 - Used(p)
  }

  function At(p: Ring, k: nat): byte
    requires WellFormed(p)
  {
    p.buf[(p.head + k) % PIPE_BUF_SIZE]
  }

  /** The bytes in the ring, oldest first. */
  ghost function Contents(p: Ring): seq<byte>
    requires WellFormed(p)
  {
    seq(Used(p), k requires 0 <= k => At(p, k))
  }

  function Put(p: Ring, b: byte): Ring
    requires WellFormed(p)
  {
    Ring(p.buf[p.tail := b], p.head, (p.tail + 1) % PIPE_BUF_SIZE)
  }

  function Take(p: Ring): Ring
    requires WellFormed(p)
  {
    p.(head := (p.head + 1) % PIPE_BUF_SIZE)
  }

  lemma Wrap(i: nat)
    requires i < 2 * PIPE_BUF_SIZE
    ensures i % PIPE_BUF_SIZE == if i < PIPE_BUF_SIZE then i else i - PIPE_BUF_SIZE
  {
  }

  lemma UsedCases(p: Ring)
    requires WellFormed(p)
    ensures Used(p) == if p.head <= p.tail then p.tail - p.head else p.tail - p.head + PIPE_BUF_SIZE
  {
    Wrap(p.tail - p.head + PIPE_BUF_SIZE);
  }

  lemma PutAppends(p: Ring, b: byte)
    requires WellFormed(p) && Free(p) > 0
    ensures WellFormed(Put(p, b)) && Contents(Put(p, b)) == Contents(p) + [b]
    ensures Used(Put(p, b)) == Used(p) + 1
  {
    hide Used;
    var q := Put(p, b);
    Wrap(p.tail + 1);
    UsedCases(p);
    UsedCases(q);
    forall k: nat | k <= Used(p) ensures At(q, k) == if k < Used(p) then At(p, k) else b {
      Wrap(p.head + k);
    }
  }

  lemma TakeRemoves(p: Ring)
    requires WellFormed(p) && Used(p) > 0
    ensures WellFormed(Take(p)) && [p.buf[p.head]] + Contents(Take(p)) == Contents(p)
    ensures Used(Take(p)) == Used(p) - 1
  {
    hide Used;
    var q := Take(p);
    Wrap(p.head + 1);
    UsedCases(p);
    UsedCases(q);
    forall k: nat | k < Used(q) ensures At(q, k) == At(p, k + 1) {
      Wrap(q.head + k);
      Wrap(p.head + k + 1);
    }
  }

  // -------------------------------------------------------------- the threads

  /** Idle: outside the call. Enter: about to take the lock at the top of the loop. Copy: the lock
      is dropped while a byte is copied. Block: queued, about to block. Asleep: on the blocked
      list. Woken: made ready again, `pending_wakeup` not yet cleared. */
  datatype Pc = Idle | Enter | Copy | Block | Asleep | Woken

  /** A read of `size` bytes that began with `base` bytes delivered; byte `i` of a batch of `n` is
      `cur`. */
  datatype Reader = Reader(pc: Pc, size: nat, base: nat, n: nat, i: nat, cur: byte)

  /** A write of `data` that began when `base` had been accepted; `total` bytes are counted as
      written and byte `i` of a batch of `n` is next. */
  datatype Writer = Writer(pc: Pc, data: seq<byte>, base: seq<byte>, total: nat, n: nat, i: nat)

  datatype State = State(
    ring: Ring, readers: nat, writers: nat,
    r: Reader, rQueued: bool, rPending: bool,
    w: Writer, wQueued: bool, wPending: bool,
    accepted: seq<byte>, taken: seq<byte>, delivered: seq<byte>, readFault: bool)

  datatype Result = Running | Returned(value: int)

  function WakeReaders(s: State): State {
    if !s.rQueued then s
    else s.(rQueued := false, rPending := true,
            r := if s.r.pc == Asleep then s.r.(pc := Woken) else s.r)
  }

  function WakeWriters(s: State): State {
    if !s.wQueued then s
    else s.(wQueued := false, wPending := true,
            w := if s.w.pc == Asleep then s.w.(pc := Woken) else s.w)
  }

  function Min(a: int, b: int): int {
    if a < b then a else b
  }

  /** Takes one byte and drops the lock to copy it out. */
  function TakeByte(s: State, n: nat, i: nat): State
    requires WellFormed(s.ring)
  {
    var b := s.ring.buf[s.ring.head];
    s.(ring := Take(s.ring), taken := s.taken + [b], r := s.r.(pc := Copy, n := n, i := i, cur := b))
  }

  function ReadTop(s: State): (State, Result)
    requires WellFormed(s.ring)
  {
    if Used(s.ring) > 0 then (TakeByte(s, Min(Used(s.ring), s.r.size), 0), Running)
    else if s.writers == 0 then (s.(r := s.r.(pc := Idle)), Returned(0))
    else (s.(r := s.r.(pc := Block), rQueued := true), Running)
  }

  function ReadCopied(s: State, fault: bool): (State, Result)
    requires WellFormed(s.ring)
  {
    if fault then (WakeWriters(s).(r := s.r.(pc := Idle), readFault := true), Returned(EFAULT))
    else
      var s' := s.(delivered := s.delivered + [s.r.cur]);
      if s.r.i + 1 < s.r.n then (TakeByte(s', s.r.n, s.r.i + 1), Running)
      else (WakeWriters(s').(r := s.r.(pc := Idle)), Returned(s.r.n))
  }

  function WriteTop(s: State): (State, Result)
    requires s.w.total < |s.w.data|
  {
    if s.readers == 0 then (s.(w := s.w.(pc := Idle)), Returned(EPIPE))
    else if Free(s.ring) > 0 then
      (s.(w := s.w.(pc := Copy, n := Min(|s.w.data| - s.w.total, Free(s.ring)), i := 0)), Running)
    else (s.(w := s.w.(pc := Block), wQueued := true), Running)
  }

  function WriteCopied(s: State, fault: bool): (State, Result)
    requires WellFormed(s.ring) && s.w.total + s.w.i < |s.w.data|
  {
    if fault then
      (WakeReaders(s).(w := s.w.(pc := Idle)), Returned(if s.w.total > 0 then s.w.total else EFAULT))
    else
      var b := s.w.data[s.w.total + s.w.i];
      var s' := s.(ring := Put(s.ring, b), accepted := s.accepted + [b]);
      if s.w.i + 1 < s.w.n then (s'.(w := s.w.(i := s.w.i + 1)), Running)
      else
        var total := s.w.total + s.w.n;
        var s'' := WakeReaders(s').(w := s.w.(total := total));
        if total >= |s.w.data| then (s''.(w := s.w.(pc := Idle, total := total)), Returned(total))
        else WriteTop(s'')
  }

  // ----------------------------------------------------------------- the steps

  datatype Action =
    | ReadCall(size: nat) | ReadLoop | ReadByte(fault: bool) | ReadBlock | ReadResume
    | WriteCall(data: seq<byte>) | WriteLoop | WriteByte(fault: bool) | WriteBlock | WriteResume
    | OpenRead | OpenWrite | CloseRead | CloseWrite

  predicate OfReader(a: Action) {
    a.ReadCall? || a.ReadLoop? || a.ReadByte? || a.ReadBlock? || a.ReadResume?
  }

  predicate OfWriter(a: Action) {
    a.WriteCall? || a.WriteLoop? || a.WriteByte? || a.WriteBlock? || a.WriteResume?
  }

  ghost predicate Enabled(s: State, a: Action) {
    && WellFormed(s.ring)
    && match a
       case ReadCall(_) => s.r.pc == Idle
       case ReadLoop => s.r.pc == Enter
       case ReadByte(_) => s.r.pc == Copy
       case ReadBlock => s.r.pc == Block
       case ReadResume => s.r.pc == Woken
       case WriteCall(_) => s.w.pc == Idle
       case WriteLoop => s.w.pc == Enter && s.w.total < |s.w.data|
       case WriteByte(_) => s.w.pc == Copy && s.w.total + s.w.i < |s.w.data|
       case WriteBlock => s.w.pc == Block
       case WriteResume => s.w.pc == Woken
       case _ => true
  }

  ghost function Next(s: State, a: Action): (State, Result)
    requires Enabled(s, a)
  {
    match a
    case ReadCall(size) =>
      if size == 0 then (s, Returned(EINVAL))
      else (s.(r := Reader(Enter, size, |s.delivered|, 0, 0, 0)), Running)
    case ReadLoop => ReadTop(s)
    case ReadByte(fault) => ReadCopied(s, fault)
    case ReadBlock =>
      if s.rPending then (s.(rPending := false, r := s.r.(pc := Enter)), Running)
      else (s.(r := s.r.(pc := Asleep)), Running)
    case ReadResume => (s.(rPending := false, r := s.r.(pc := Enter)), Running)
    case WriteCall(data) =>
      if data == [] then (s, Returned(EINVAL))
      else (s.(w := Writer(Enter, data, s.accepted, 0, 0, 0)), Running)
    case WriteLoop => WriteTop(s)
    case WriteByte(fault) => WriteCopied(s, fault)
    case WriteBlock =>
      if s.wPending then (s.(wPending := false, w := s.w.(pc := Enter)), Running)
      else (s.(w := s.w.(pc := Asleep)), Running)
    case WriteResume => (s.(wPending := false, w := s.w.(pc := Enter)), Running)
    case OpenRead => (s.(readers := s.readers + 1), Running)
    case OpenWrite => (s.(writers := s.writers + 1), Running)
    case CloseRead =>
      var s' := s.(readers := if s.readers > 0 then s.readers - 1 else 0);
      (if s'.readers == 0 then WakeWriters(s') else s', Running)
    case CloseWrite =>
      var s' := s.(writers := if s.writers > 0 then s.writers - 1 else 0);
      (if s'.writers == 0 then WakeReaders(s') else s', Running)
  }

  // ------------------------------------------------------------- the invariant

  /** The ring holds exactly what was accepted and not yet taken, in order. */
  ghost predicate RingOk(s: State) {
    WellFormed(s.ring) && s.taken + Contents(s.ring) == s.accepted
  }

  /** Nothing is lost or reordered between acceptance, the ring and delivery. */
  ghost predicate StreamOk(s: State) {
    && RingOk(s)
    && (!s.readFault ==> s.delivered + (if s.r.pc == Copy then [s.r.cur] else []) == s.taken)
  }

  ghost predicate ReaderOk(s: State) {
    && (s.r.pc != Idle ==> s.r.size > 0 && |s.delivered| == s.r.base + (if s.r.pc == Copy then s.r.i else 0))
    && (s.r.pc == Copy ==> s.r.i < s.r.n <= s.r.size && s.r.n - s.r.i - 1 <= Used(s.ring))
    && (s.rQueued ==> s.r.pc == Block || s.r.pc == Asleep)
    && (s.rPending ==> s.r.pc == Block || s.r.pc == Woken)
    && (s.r.pc == Block ==> s.rQueued != s.rPending)
    && (s.r.pc == Asleep ==> s.rQueued)
    && (s.rQueued ==> s.writers > 0 && (Used(s.ring) == 0 || s.w.pc == Copy))
  }

  /** How far a write has come, the bytes of its current batch included. */
  function Progress(w: Writer): nat {
    w.total + if w.pc == Copy then w.i else 0
  }

  ghost predicate WriterOk(s: State) {
    && (s.w.pc != Idle ==>
          s.w.total <= Progress(s.w) < |s.w.data| && s.accepted == s.w.base + s.w.data[..Progress(s.w)])
    && (s.w.pc == Copy ==> s.w.i < s.w.n && s.w.total + s.w.n <= |s.w.data| && s.w.n - s.w.i <= Free(s.ring))
    && (s.wQueued ==> s.w.pc == Block || s.w.pc == Asleep)
    && (s.wPending ==> s.w.pc == Block || s.w.pc == Woken)
    && (s.w.pc == Block ==> s.wQueued != s.wPending)
    && (s.w.pc == Asleep ==> s.wQueued)
    && (s.wQueued ==> s.readers > 0 && (Free(s.ring) == 0 || s.r.pc == Copy))
  }

  ghost predicate Inv(s: State) {
    StreamOk(s) && ReaderOk(s) && WriterOk(s)
  }

  lemma TakeByteKeeps(s: State, n: nat, i: nat)
    requires RingOk(s) && WriterOk(s) && !s.rQueued && !s.rPending
    requires Used(s.ring) > 0 && 0 <= n - i - 1 < Used(s.ring) && n <= s.r.size
    requires |s.delivered| == s.r.base + i && (s.readFault || s.delivered == s.taken)
    ensures Inv(TakeByte(s, n, i))
  {
    hide Contents, Used;
    TakeRemoves(s.ring);
    var b := s.ring.buf[s.ring.head];
    assert s.taken + [b] + Contents(Take(s.ring)) == s.taken + ([b] + Contents(Take(s.ring)));
  }

  lemma ReadByteKeeps(s: State, fault: bool)
    requires Inv(s) && Enabled(s, ReadByte(fault))
    ensures Inv(Next(s, ReadByte(fault)).0)
  {
    hide Contents, TakeByte, Used;
    if !fault && s.r.i + 1 < s.r.n {
      TakeByteKeeps(s.(delivered := s.delivered + [s.r.cur]), s.r.n, s.r.i + 1);
    }
  }

  lemma ReaderStepKeeps(s: State, a: Action)
    requires Inv(s) && Enabled(s, a) && OfReader(a)
    ensures Inv(Next(s, a).0)
  {
    hide Contents, ReadCopied, TakeByte, Used;
    if a.ReadLoop? && Used(s.ring) > 0 {
      TakeByteKeeps(s, Min(Used(s.ring), s.r.size), 0);
    } else if a.ReadByte? {
      ReadByteKeeps(s, a.fault);
    }
  }

  lemma WriteTopKeeps(s: State)
    requires StreamOk(s) && ReaderOk(s.(w := s.w.(pc := Enter))) && !s.wQueued && !s.wPending
    requires s.w.total < |s.w.data| && s.accepted == s.w.base + s.w.data[..s.w.total]
    ensures Inv(WriteTop(s).0)
  {
    hide Contents;
  }

  lemma WriteByteKeeps(s: State, fault: bool)
    requires Inv(s) && Enabled(s, WriteByte(fault))
    ensures Inv(Next(s, WriteByte(fault)).0)
  {
    hide Contents, Put, WriteTop, Used;
    if !fault {
      var b := s.w.data[s.w.total + s.w.i];
      PutAppends(s.ring, b);
      assert s.taken + (Contents(s.ring) + [b]) == s.taken + Contents(s.ring) + [b];
      assert s.w.data[..Progress(s.w) + 1] == s.w.data[..Progress(s.w)] + [b];
      assert s.accepted + [b] == s.w.base + s.w.data[..Progress(s.w) + 1];
      if s.w.i + 1 == s.w.n && s.w.total + s.w.n < |s.w.data| {
        var s' := s.(ring := Put(s.ring, b), accepted := s.accepted + [b]);
        WriteTopKeeps(WakeReaders(s').(w := s.w.(total := s.w.total + s.w.n)));
      }
    }
  }

  lemma WriterStepKeeps(s: State, a: Action)
    requires Inv(s) && Enabled(s, a) && OfWriter(a)
    ensures Inv(Next(s, a).0)
  {
    hide Contents, WriteCopied, WriteTop, Used;
    if a.WriteLoop? {
      WriteTopKeeps(s);
    } else if a.WriteByte? {
      WriteByteKeeps(s, a.fault);
    }
  }

  lemma EndpointStepKeeps(s: State, a: Action)
    requires Inv(s) && Enabled(s, a) && !OfReader(a) && !OfWriter(a)
    ensures Inv(Next(s, a).0)
  {
    hide Contents, Used;
  }

  // --------------------------------------------------------------------- runs

  predicate Initial(s: State) {
    && WellFormed(s.ring) && s.ring.head == s.ring.tail == 0 && s.readers == s.writers == 1
    && s.r.pc == Idle && s.w.pc == Idle && !s.rQueued && !s.rPending && !s.wQueued && !s.wPending
    && s.accepted == s.taken == s.delivered == [] && !s.readFault
  }

  ghost predicate StepsTo(s: State, a: Action, s': State) {
    Enabled(s, a) && s' == Next(s, a).0
  }

  /** Any interleaving of the two threads with openings and closings of the ends. */
  ghost predicate Run(states: seq<State>, actions: seq<Action>) {
    && |states| == |actions| + 1 && Initial(states[0])
    && forall k :: 0 <= k < |actions| ==>
         Enabled(states[k], actions[k]) && states[k + 1] == Next(states[k], actions[k]).0
  }

  lemma {:induction false} RunKeepsInv(states: seq<State>, actions: seq<Action>, k: nat)
    requires Run(states, actions) && k <= |actions|
    ensures Inv(states[k])
  {
    hide Next;
    if k > 0 {
      RunKeepsInv(states, actions, k - 1);
      var s, a := states[k - 1], actions[k - 1];
      if OfReader(a) {
        ReaderStepKeeps(s, a);
      } else if OfWriter(a) {
        WriterStepKeeps(s, a);
      } else {
        EndpointStepKeeps(s, a);
      }
    }
  }

  /** Delivered bytes, the byte in flight and the ring are what was accepted, in order, and the ring
      never holds more than its capacity. */
  lemma StreamLaw(states: seq<State>, actions: seq<Action>, k: nat)
    requires Run(states, actions) && k <= |actions|
    ensures var s := states[k];
            && WellFormed(s.ring) && |Contents(s.ring)| < PIPE_BUF_SIZE
            && s.taken + Contents(s.ring) == s.accepted
            && (!s.readFault ==>
                  && s.delivered <= s.accepted
                  && s.delivered + (if s.r.pc == Copy then [s.r.cur] else []) + Contents(s.ring) == s.accepted)
  {
    RunKeepsInv(states, actions, k);
  }

  /** What a read returns. 0 means that the ring is drained and no write end is open; otherwise it
      is the number of bytes this call delivered, at least one and at most the size asked for. */
  lemma ReadResult(states: seq<State>, actions: seq<Action>, k: nat, v: int)
    requires Run(states, actions) && k < |actions|
    requires actions[k].ReadLoop? || actions[k].ReadByte?
    requires Next(states[k], actions[k]).1 == Returned(v)
    ensures var s, s' := states[k], states[k + 1];
            && (v == 0 ==> s.writers == 0 && s'.taken == s'.accepted && (!s'.readFault ==> s'.delivered == s'.accepted))
            && (v > 0 ==> v <= s.r.size && |s'.delivered| == s.r.base + v)
            && (v < 0 ==> v == EFAULT && s'.readFault)
  {
    hide Contents;
    RunKeepsInv(states, actions, k);
    RunKeepsInv(states, actions, k + 1);
    var p := states[k].ring;
    assert Used(p) == 0 ==> Contents(p) == [] by { EmptyContents(p); }
  }

  lemma EmptyContents(p: Ring)
    requires WellFormed(p)
    ensures |Contents(p)| == Used(p)
  {
  }

  /** What a write returns: everything was accepted, or no read end is open and a prefix was, or a
      copy failed. A failed copy reports the bytes of the batches before, or a fault when there are
      none, and that is what was accepted iff it failed on the first byte of a batch. */
  lemma WriteResult(states: seq<State>, actions: seq<Action>, k: nat, v: int)
    requires Run(states, actions) && k < |actions|
    requires actions[k].WriteLoop? || actions[k].WriteByte?
    requires Next(states[k], actions[k]).1 == Returned(v)
    ensures var s, s' := states[k], states[k + 1];
            if actions[k] == WriteByte(true) then
              && s.w.total + s.w.i < |s.w.data| && s'.accepted == s.w.base + s.w.data[..s.w.total + s.w.i]
              && v == (if s.w.total > 0 then s.w.total else EFAULT)
              && (|s'.accepted| == |s.w.base| + Max(v, 0) <==> s.w.i == 0)
            else
              || (v == |s.w.data| && s'.accepted == s.w.base + s.w.data)
              || (v == EPIPE && s.readers == 0 && AcceptedPrefix(s.w, s'.accepted))
  {
    hide Contents, Put;
    RunKeepsInv(states, actions, k);
    var s := states[k];
    var n := Progress(s.w);
    if actions[k].WriteByte? {
      assert s.w.data[..n + 1] == s.w.data[..n] + [s.w.data[n]];
      assert s.w.data[..|s.w.data|] == s.w.data;
      assert s.accepted + [s.w.data[n]] == s.w.base + s.w.data[..n + 1];
    }
  }

  ghost predicate AcceptedPrefix(w: Writer, accepted: seq<byte>) {
    exists n :: 0 <= n <= |w.data| && accepted == w.base + w.data[..n]
  }

  function Max(a: int, b: int): int { if a > b then a else b }

  lemma FourSteps(states: seq<State>, actions: seq<Action>)
    requires |states| == 5 && |actions| == 4 && Initial(states[0])
    requires StepsTo(states[0], actions[0], states[1]) && StepsTo(states[1], actions[1], states[2])
    requires StepsTo(states[2], actions[2], states[3]) && StepsTo(states[3], actions[3], states[4])
    ensures Run(states, actions)
  {
    hide Next, Enabled, Initial;
  }

  /** A write of two bytes that fails on the second one reports a fault, yet the first one is in the pipe. */
  lemma FaultHidesBytes(s: State) returns (states: seq<State>)
    requires Initial(s)
    ensures var actions := [WriteCall([1, 2]), WriteLoop, WriteByte(false), WriteByte(true)];
            Run(states, actions) && Next(states[3], actions[3]).1 == Returned(EFAULT) && states[4].accepted == [1]
  {
    hide Run;
    var s1 := s.(w := Writer(Enter, [1, 2], [], 0, 0, 0));
    var s2 := s1.(w := Writer(Copy, [1, 2], [], 0, 2, 0));
    var s3 := s2.(w := Writer(Copy, [1, 2], [], 0, 2, 1), ring := Put(s.ring, 1), accepted := [1]);
    var s4 := s3.(w := Writer(Idle, [1, 2], [], 0, 2, 1));
    assert StepsTo(s, WriteCall([1, 2]), s1) && StepsTo(s1, WriteLoop, s2);
    assert StepsTo(s2, WriteByte(false), s3) && StepsTo(s3, WriteByte(true), s4);
    states := [s, s1, s2, s3, s4];
    FourSteps(states, [WriteCall([1, 2]), WriteLoop, WriteByte(false), WriteByte(true)]);
  }

  /** No wakeup is lost: a sleeping reader has nothing to read or is about to be woken by a writer in
      the middle of a batch, and symmetrically; the two never sleep together. */
  lemma NoLostWakeup(states: seq<State>, actions: seq<Action>, k: nat)
    requires Run(states, actions) && k <= |actions|
    ensures var s := states[k];
            && (s.r.pc == Asleep ==> s.writers > 0 && (Used(s.ring) == 0 || s.w.pc == Copy))
            && (s.w.pc == Asleep ==> s.readers > 0 && (Free(s.ring) == 0 || s.r.pc == Copy))
            && !(s.r.pc == Asleep && s.w.pc == Asleep)
  {
    RunKeepsInv(states, actions, k);
  }

  /** A reader asleep while there is data stays asleep for no more writer steps than are left in the
      writer's batch, whatever else happens. */
  lemma ReaderSleepIsBounded(states: seq<State>, actions: seq<Action>, k: nat)
    requires Run(states, actions) && k < |actions|
    requires states[k].r.pc == Asleep && Used(states[k].ring) > 0 && states[k + 1].r.pc == Asleep
    ensures var w, w' := states[k].w, states[k + 1].w;
            w.pc == w'.pc == Copy && w'.n - w'.i == w.n - w.i - if actions[k].WriteByte? then 1 else 0
    ensures Used(states[k + 1].ring) > 0
  {
    hide Contents;
    RunKeepsInv(states, actions, k);
    if actions[k] == WriteByte(false) {
      var w := states[k].w;
      PutAppends(states[k].ring, w.data[w.total + w.i]);
    }
  }

  lemma WriterSleepIsBounded(states: seq<State>, actions: seq<Action>, k: nat)
    requires Run(states, actions) && k < |actions|
    requires states[k].w.pc == Asleep && Free(states[k].ring) > 0 && states[k + 1].w.pc == Asleep
    ensures var r, r' := states[k].r, states[k + 1].r;
            r.pc == r'.pc == Copy && r'.n - r'.i == r.n - r.i - if actions[k].ReadByte? then 1 else 0
    ensures Free(states[k + 1].ring) > 0
  {
    hide Contents;
    RunKeepsInv(states, actions, k);
    if actions[k] == ReadByte(false) && states[k].r.i + 1 < states[k].r.n {
      TakeRemoves(states[k].ring);
    }
  }

  /** A thread inside a call that is not asleep always has a step to take. */
  lemma AwakeThreadsCanMove(states: seq<State>, actions: seq<Action>, k: nat)
    requires Run(states, actions) && k <= |actions|
    ensures var s := states[k];
            && (s.r.pc != Idle && s.r.pc != Asleep ==>
                  exists a :: OfReader(a) && !a.ReadCall? && Enabled(s, a))
            && (s.w.pc != Idle && s.w.pc != Asleep ==>
                  exists a :: OfWriter(a) && !a.WriteCall? && Enabled(s, a))
  {
    RunKeepsInv(states, actions, k);
    var s := states[k];
    var r :=
      match s.r.pc
      case Enter => ReadLoop
      case Copy => ReadByte(false)
      case Block => ReadBlock
      case _ => ReadResume;
    var w :=
      match s.w.pc
      case Enter => WriteLoop
      case Copy => WriteByte(false)
      case Block => WriteBlock
      case _ => WriteResume;
    assert s.r.pc != Idle && s.r.pc != Asleep ==> Enabled(s, r);
    assert s.w.pc != Idle && s.w.pc != Asleep ==> Enabled(s, w);
  }
}
