/**
  When pipe calls return what, the other way round: given the state of the pipe, what a call must do.
  */
module PipeCalls {
  import opened Bytes
  import opened Pipe

  /** Open ends of one kind after some actions: a new pipe has one, and closing stops at none. */
  function Ends(actions: seq<Action>, open: Action, close: Action): nat {
    if actions == [] then 1
    else
      var n, a := Ends(actions[..|actions| - 1], open, close), actions[|actions| - 1];
      if a == open then n + 1 else if a == close && n > 0 then n - 1 else n
  }

  lemma {:induction false} EndsAreCounted(states: seq<State>, actions: seq<Action>, k: nat)
    requires Run(states, actions) && k <= |actions|
    ensures states[k].readers == Ends(actions[..k], OpenRead, CloseRead)
    ensures states[k].writers == Ends(actions[..k], OpenWrite, CloseWrite)
  {
    hide Next, Enabled;
    if k > 0 {
      EndsAreCounted(states, actions, k - 1);
      assert actions[..k][..k - 1] == actions[..k - 1];
      StepMovesEnds(states[k - 1], actions[k - 1]);
    }
  }

  lemma StepMovesEnds(s: State, a: Action)
    requires Enabled(s, a)
    ensures EndsOf(Next(s, a).0) ==
            (if a == OpenRead then s.readers + 1
             else if a == CloseRead && s.readers > 0 then s.readers - 1 else s.readers,
             if a == OpenWrite then s.writers + 1
             else if a == CloseWrite && s.writers > 0 then s.writers - 1 else s.writers)
  {
    hide Next, Enabled;
    if OfReader(a) {
      ReaderKeepsEnds(s, a);
    } else if OfWriter(a) {
      WriterKeepsEnds(s, a);
    } else {
      EndStep(s, a);
    }
  }

  lemma EndStep(s: State, a: Action)
    requires Enabled(s, a) && !OfReader(a) && !OfWriter(a)
    ensures EndsOf(Next(s, a).0) ==
            (if a == OpenRead then s.readers + 1
             else if a == CloseRead && s.readers > 0 then s.readers - 1 else s.readers,
             if a == OpenWrite then s.writers + 1
             else if a == CloseWrite && s.writers > 0 then s.writers - 1 else s.writers)
  {
    hide WakeReaders, WakeWriters, ReadTop, ReadCopied, WriteTop, WriteCopied;
    WakingKeeps(s.(readers := if s.readers > 0 then s.readers - 1 else 0));
    WakingKeeps(s.(writers := if s.writers > 0 then s.writers - 1 else 0));
  }

  function EndsOf(s: State): (nat, nat) {
    (s.readers, s.writers)
  }

  lemma WakingKeeps(s: State)
    ensures EndsOf(WakeReaders(s)) == EndsOf(WakeWriters(s)) == EndsOf(s) && WakeWriters(s).r == s.r
  {
  }

  lemma ReaderKeepsEnds(s: State, a: Action)
    requires Enabled(s, a) && OfReader(a)
    ensures EndsOf(Next(s, a).0) == EndsOf(s)
  {
    hide Used, ReadTop, ReadCopied;
    if a.ReadLoop? {
      ReadTopKeepsEnds(s);
    } else if a.ReadByte? {
      ReadCopiedKeepsEnds(s, a.fault);
    }
  }

  lemma ReadTopKeepsEnds(s: State)
    requires WellFormed(s.ring)
    ensures EndsOf(ReadTop(s).0) == EndsOf(s)
  {
    hide Used, Take;
  }

  lemma ReadCopiedKeepsEnds(s: State, fault: bool)
    requires WellFormed(s.ring)
    ensures EndsOf(ReadCopied(s, fault).0) == EndsOf(s)
  {
    hide Used, Take, WakeWriters;
    if fault {
      WakingKeeps(s);
    } else {
      WakingKeeps(s.(delivered := s.delivered + [s.r.cur]));
    }
  }

  lemma WriterKeepsEnds(s: State, a: Action)
    requires Enabled(s, a) && OfWriter(a)
    ensures EndsOf(Next(s, a).0) == EndsOf(s)
  {
    hide Used, WriteCopied;
    if a.WriteByte? {
      CopyKeepsEnds(s, a.fault);
    }
  }

  lemma CopyKeepsEnds(s: State, fault: bool)
    requires WellFormed(s.ring) && s.w.total + s.w.i < |s.w.data|
    ensures EndsOf(WriteCopied(s, fault).0) == EndsOf(s)
  {
    hide Used, Put, WakeReaders;
    WakingKeeps(s);
    var b := s.w.data[s.w.total + s.w.i];
    WakingKeeps(s.(ring := Put(s.ring, b), accepted := s.accepted + [b]));
  }

  /** Nothing to read or to write is an error, and changes nothing. */
  lemma EmptyCalls(states: seq<State>, actions: seq<Action>, k: nat)
    requires Run(states, actions) && k < |actions| && (actions[k] == ReadCall(0) || actions[k] == WriteCall([]))
    ensures Next(states[k], actions[k]).1 == Returned(-22) && states[k + 1] == states[k]
  {
  }

  /** Without a read end a write ends with EPIPE as soon as it looks: at its start, after a wakeup, and after
      the last byte of a batch if there is more to write. It stores nothing then. */
  lemma NoReaderMeansEpipe(states: seq<State>, actions: seq<Action>, k: nat)
    requires Run(states, actions) && k < |actions| && states[k].readers == 0
    ensures actions[k] == WriteLoop ==>
              && Next(states[k], actions[k]).1 == Returned(-32)
              && states[k + 1].accepted == states[k].accepted && states[k + 1].ring == states[k].ring
    ensures var w := states[k].w;
            actions[k] == WriteByte(false) && w.i + 1 == w.n && w.total + w.n < |w.data| ==>
              && Next(states[k], actions[k]).1 == Returned(-32) && states[k + 1].w.pc == Idle
              && |states[k + 1].accepted| == |states[k].accepted| + 1
  {
    hide Used, Put;
  }

  /** What is left of the batch a write is copying. */
  function BatchLeft(w: Writer): int {
    if w.pc == Copy then w.n - w.i else 0
  }

  /** While no read end is open nothing is accepted but the rest of the batch that was being copied. */
  lemma {:induction false} NoReaderNoBatch(states: seq<State>, actions: seq<Action>, j: nat, k: nat)
    requires Run(states, actions) && j <= k <= |actions| && forall i :: j <= i < k ==> states[i].readers == 0
    ensures BatchLeft(states[k].w) >= 0
    ensures |states[k].accepted| + BatchLeft(states[k].w) <= |states[j].accepted| + BatchLeft(states[j].w)
    decreases k - j
  {
    hide Next, Enabled, Inv, BatchLeft;
    BatchIsOpen(states, actions, k);
    if j < k {
      NoReaderNoBatch(states, actions, j, k - 1);
      RunKeepsInv(states, actions, k - 1);
      StepWithoutReader(states[k - 1], actions[k - 1]);
    }
  }

  lemma StepWithoutReader(s: State, a: Action)
    requires Inv(s) && Enabled(s, a) && s.readers == 0
    ensures var s' := Next(s, a).0;
            |s'.accepted| + BatchLeft(s'.w) <= |s.accepted| + BatchLeft(s.w)
  {
    hide Used, Put, Take, StreamOk, ReaderOk, ReadTop, ReadCopied, WriteCopied, WakeReaders, WakeWriters;
    match a
    case ReadLoop => ReadTopKeepsBatch(s);
    case ReadByte(fault) => ReadingKeepsBatch(s, fault);
    case WriteByte(fault) => CopyWithoutReader(s, fault);
    case CloseRead => WakingKeepsBatch(s);
    case CloseWrite => WakingKeepsBatch(s.(writers := if s.writers > 0 then s.writers - 1 else 0));
    case _ =>
  }

  lemma WakingKeepsBatch(s: State)
    ensures WakeWriters(s).accepted == WakeReaders(s).accepted == s.accepted
    ensures BatchLeft(WakeWriters(s).w) == BatchLeft(s.w) && WakeReaders(s).w == s.w
  {
  }

  lemma ReadTopKeepsBatch(s: State)
    requires WellFormed(s.ring)
    ensures ReadTop(s).0.accepted == s.accepted && ReadTop(s).0.w == s.w
  {
    hide Used, Take;
  }

  lemma ReadingKeepsBatch(s: State, fault: bool)
    requires WellFormed(s.ring)
    ensures var s' := ReadCopied(s, fault).0; s'.accepted == s.accepted && BatchLeft(s'.w) == BatchLeft(s.w)
  {
    hide Take, WakeWriters, BatchLeft;
    var s1 := s.(delivered := s.delivered + [s.r.cur]);
    if fault {
      WakingKeepsBatch(s);
    } else if s.r.i + 1 < s.r.n {
      assert ReadCopied(s, fault).0 == TakeByte(s1, s.r.n, s.r.i + 1);
    } else {
      WakingKeepsBatch(s1);
    }
  }

  lemma CopyWithoutReader(s: State, fault: bool)
    requires WellFormed(s.ring) && s.readers == 0 && s.w.pc == Copy && s.w.i < s.w.n
    requires s.w.total + s.w.n <= |s.w.data| && s.w.total + s.w.i < |s.w.data|
    ensures var s' := WriteCopied(s, fault).0;
            |s'.accepted| + BatchLeft(s'.w) <= |s.accepted| + BatchLeft(s.w)
  {
    hide Used, Put, WakeReaders;
    WakingKeepsBatch(s);
    var b := s.w.data[s.w.total + s.w.i];
    var s' := s.(ring := Put(s.ring, b), accepted := s.accepted + [b]);
    WakingKeepsBatch(s');
    WakingKeeps(s');
  }

  lemma BatchIsOpen(states: seq<State>, actions: seq<Action>, k: nat)
    requires Run(states, actions) && k <= |actions|
    ensures BatchLeft(states[k].w) >= 0
  {
    RunKeepsInv(states, actions, k);
  }

  /** With a read end a write goes on: it copies as much as is left and fits, or waits for room. */
  lemma WriteGoesOn(states: seq<State>, actions: seq<Action>, k: nat)
    requires Run(states, actions) && k < |actions| && states[k].readers > 0 && actions[k] == WriteLoop
    ensures var s, w := states[k], states[k + 1].w;
            && Next(s, WriteLoop).1 == Running && w.data == s.w.data && w.total == s.w.total
            && (if Free(s.ring) > 0 then w.pc == Copy && w.i == 0 && w.n == Min(|w.data| - w.total, Free(s.ring))
                else w.pc == Block && states[k + 1].wQueued)
  {
    hide Used, Put;
  }

  /** A read finds data and takes as much as there is and was asked for; or it ends with 0 because no write
      end is open; or it waits. */
  lemma ReadFinds(states: seq<State>, actions: seq<Action>, k: nat)
    requires Run(states, actions) && k < |actions| && actions[k] == ReadLoop
    ensures var s, s' := states[k], states[k + 1];
            if Used(s.ring) > 0 then
              s'.r.pc == Copy && s'.r.size == s.r.size && s'.r.n == Min(Used(s.ring), s.r.size) && s'.r.i == 0
            else if s.writers == 0 then Next(s, ReadLoop).1 == Returned(0) && s'.r.pc == Idle
            else Next(s, ReadLoop).1 == Running && s'.r.pc == Block && s'.rQueued
  {
    hide Used, Take;
  }

  lemma {:induction false} BatchIsFixed(states: seq<State>, actions: seq<Action>, j: nat, k: nat)
    requires Run(states, actions) && j < k <= |actions| && actions[j] == ReadLoop
    requires forall i :: j < i <= k ==> states[i].r.pc == Copy
    ensures Used(states[j].ring) > 0 && states[k].r.n == Min(Used(states[j].ring), states[j].r.size)
    ensures states[k].r.size == states[j].r.size
    decreases k - j
  {
    hide Next, Enabled, Used;
    ReadFinds(states, actions, j);
    if j + 1 < k {
      BatchIsFixed(states, actions, j, k - 1);
      assert states[k].r.pc == Copy && states[k - 1].r.pc == Copy;
      StepKeepsBatch(states[k - 1], actions[k - 1], states[k]);
    }
  }

  lemma StepKeepsBatch(s: State, a: Action, s': State)
    requires Enabled(s, a) && s' == Next(s, a).0 && s.r.pc == Copy && s'.r.pc == Copy
    ensures s'.r.n == s.r.n && s'.r.size == s.r.size
  {
    hide WriteTop, WriteCopied, Used, Take, WakeReaders, WakeWriters;
    match a
    case WriteLoop => WriteTopKeepsReader(s);
    case WriteByte(fault) => WritingKeepsReader(s, fault);
    case CloseRead => WakingKeeps(s.(readers := if s.readers > 0 then s.readers - 1 else 0));
    case CloseWrite => WakingCopier(s.(writers := if s.writers > 0 then s.writers - 1 else 0));
    case _ =>
  }

  lemma WakingCopier(s: State)
    requires s.r.pc == Copy
    ensures WakeReaders(s).r == s.r
  {
  }

  lemma WriteTopKeepsReader(s: State)
    requires s.w.total < |s.w.data|
    ensures WriteTop(s).0.r == s.r
  {
    hide Used, Free;
  }

  lemma WritingKeepsReader(s: State, fault: bool)
    requires WellFormed(s.ring) && s.r.pc == Copy && s.w.total + s.w.i < |s.w.data|
    ensures WriteCopied(s, fault).0.r == s.r
  {
    hide Used, Put, WakeReaders, WriteTop;
    WakingCopier(s);
    var b := s.w.data[s.w.total + s.w.i];
    var s' := s.(ring := Put(s.ring, b), accepted := s.accepted + [b]);
    WakingCopier(s');
    var total := s.w.total + s.w.n;
    if total < |s.w.data| {
      WriteTopKeepsReader(WakeReaders(s').(w := s.w.(total := total)));
    }
  }

  /** A read without a fault returns exactly as many bytes as were there when it looked, up to its size. */
  lemma ReadGetsWhatIsThere(states: seq<State>, actions: seq<Action>, j: nat, k: nat, v: int)
    requires Run(states, actions) && j < k < |actions| && actions[j] == ReadLoop && actions[k] == ReadByte(false)
    requires forall i :: j < i <= k ==> states[i].r.pc == Copy
    requires Next(states[k], actions[k]).1 == Returned(v)
    ensures v == Min(Used(states[j].ring), states[j].r.size)
  {
    hide Used, Take, Put;
    BatchIsFixed(states, actions, j, k);
  }

  /** A failed copy to the user ends the read with EFAULT; the byte is gone from the pipe. */
  lemma ReadFault(states: seq<State>, actions: seq<Action>, k: nat)
    requires Run(states, actions) && k < |actions| && actions[k] == ReadByte(true)
    ensures Next(states[k], actions[k]).1 == Returned(-14)
    ensures states[k + 1].delivered == states[k].delivered && states[k + 1].taken == states[k].taken
  {
    hide Used, Take;
  }

  /** In every run the pipe holds what was accepted and not yet taken, at most 4095 bytes, and a writer with
      a reader to write to waits iff it is full. */
  lemma PipeHolds(states: seq<State>, actions: seq<Action>, k: nat)
    requires Run(states, actions) && k <= |actions|
    ensures var s := states[k];
            && s.taken <= s.accepted && Used(s.ring) == |s.accepted| - |s.taken| <= 4095
            && (k < |actions| && actions[k] == WriteLoop && s.readers > 0 ==>
                  (states[k + 1].w.pc == Block <==> |s.accepted| - |s.taken| == 4095))
  {
    hide Used, ReaderOk, WriterOk;
    RunKeepsInv(states, actions, k);
    var s := states[k];
    assert |Contents(s.ring)| == Used(s.ring);
    UsedIsBounded(s.ring);
  }

  lemma UsedIsBounded(p: Ring)
    requires WellFormed(p)
    ensures 0 <= Used(p) <= 4095 && Free(p) == 4095 - Used(p)
  {
  }
}
