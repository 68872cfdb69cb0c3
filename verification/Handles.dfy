/**
  Handles: per-process tables of references to kernel objects, with rights.

  `refs` holds the reference count of every live object, `readers` and `writers` the two extra counts
  of a pipe. `inflight` is the multiset of references taken by `handle_acquire` and not put back yet.
  Whether the heap has memory for a larger table is passed in as `grow`.
  */
module Handles {
  import opened Bytes
  import Kmalloc
  import PageAllocator
  import opened Wrappers

  /** The five bits of a rights word. */
  datatype Right = Read | Write | Exec | Transfer | Duplicate

  const RIGHT_ALL: set<Right> := {Read, Write, Exec, Transfer, Duplicate}

  /** The rights argument of a transfer: 0 inherits, anything else is intersected. */
  datatype Mask = Inherit | Only(rights: set<Right>)

  const INVALID := 0xFFFF_FFFF

  /** Pipes have two kinds of handle; every other object type has one. */
  datatype Kind = Other | PipeRead | PipeWrite

  datatype Entry = Empty | Used(kind: Kind, obj: nat, rights: set<Right>)

  type Tables = seq<seq<Entry>>

  // ------------------------------------------------------------------ who holds what

  predicate Holds(ts: Tables, p: nat, h: nat, o: nat) {
    p < |ts| && h < |ts[p]| && ts[p][h].Used? && ts[p][h].obj == o
  }

  const ANY: set<Kind> := {Other, PipeRead, PipeWrite}

  /** The table slots that refer to `o` with a handle of one of the kinds. */
  ghost function Slots(ts: Tables, o: nat, kinds: set<Kind>): set<(nat, nat)> {
    set p: nat, h: nat | p < |ts| && h < |ts[p]| && Holds(ts, p, h, o) && ts[p][h].kind in kinds :: (p, h)
  }

  /** `ts'` is `ts` with entry `e` in a slot that was free; tables may have grown. */
  ghost predicate Placed(ts: Tables, ts': Tables, p: nat, h: nat, e: Entry) {
    && |ts'| == |ts| && p < |ts| && |ts'[p]| >= |ts[p]| && h < |ts'[p]|
    && (h < |ts[p]| ==> ts[p][h] == Empty)
    && (forall q: nat :: q < |ts| && q != p ==> ts'[q] == ts[q])
    && (forall i: nat :: i < |ts'[p]| ==> ts'[p][i] == if i == h then e else if i < |ts[p]| then ts[p][i] else Empty)
  }

  lemma PlacedSlots(ts: Tables, ts': Tables, p: nat, h: nat, e: Entry, o: nat, kinds: set<Kind>)
    requires Placed(ts, ts', p, h, e) && e.Used?
    ensures (p, h) !in Slots(ts, o, kinds)
    ensures Slots(ts', o, kinds) == if e.obj == o && e.kind in kinds then Slots(ts, o, kinds) + {(p, h)}
            else Slots(ts, o, kinds)
  {
    forall q: nat, i: nat
      ensures (q, i) in Slots(ts', o, kinds) <==>
              (q, i) in Slots(ts, o, kinds) || (q == p && i == h && e.obj == o && e.kind in kinds)
    {
    }
  }

  lemma ClearedSlots(ts: Tables, p: nat, h: nat, o: nat, kinds: set<Kind>)
    requires p < |ts| && h < |ts[p]|
    ensures Slots(ts[p := ts[p][h := Empty]], o, kinds) == Slots(ts, o, kinds) - {(p, h)}
  {
  }

  // --------------------------------------------------------------------- counting

  /** Reference counts of the live objects, and the reader and writer counts of the live pipes. */
  datatype Counts = Counts(refs: map<nat, nat>, readers: map<nat, nat>, writers: map<nat, nat>)

  function Get(c: Counts, o: nat): Counts
    requires o in c.refs
  {
    c.(refs := c.refs[o := c.refs[o] + 1])
  }

  /** Dropping the last reference frees the object. */
  function Put(c: Counts, o: nat): Counts
    requires o in c.refs && c.refs[o] > 0
  {
    if c.refs[o] == 1 then Counts(c.refs - {o}, c.readers - {o}, c.writers - {o})
    else c.(refs := c.refs[o := c.refs[o] - 1])
  }

  function Open(c: Counts, k: Kind, o: nat): Counts
    requires o in c.refs && (k != Other ==> o in c.readers && o in c.writers)
  {
    match k
    case Other => Get(c, o)
    case PipeRead => Get(c, o).(readers := c.readers[o := c.readers[o] + 1])
    case PipeWrite => Get(c, o).(writers := c.writers[o := c.writers[o] + 1])
  }

  function Less(m: map<nat, nat>, o: nat): map<nat, nat>
    requires o in m
  {
    if m[o] > 0 then m[o := m[o] - 1] else m
  }

  function Destroy(c: Counts, k: Kind, o: nat): Counts
    requires o in c.refs && c.refs[o] > 0 && (k != Other ==> o in c.readers && o in c.writers)
  {
    match k
    case Other => Put(c, o)
    case PipeRead => Put(c.(readers := Less(c.readers, o)), o)
    case PipeWrite => Put(c.(writers := Less(c.writers, o)), o)
  }

  /** A live object is counted once for every slot that refers to it and every reference in flight,
      and nothing refers to an object that is not live. Pipe ends likewise. */
  ghost predicate ObjectOk(ts: Tables, c: Counts, inflight: multiset<nat>, o: nat) {
    if o in c.refs then
      && 0 < c.refs[o] == |Slots(ts, o, ANY)| + inflight[o]
      && (o in c.readers <==> o in c.writers)
      && (o in c.readers ==> c.readers[o] == |Slots(ts, o, {PipeRead})| && c.writers[o] == |Slots(ts, o, {PipeWrite})|)
    else
      Slots(ts, o, ANY) == {} && inflight[o] == 0 && o !in c.readers && o !in c.writers
  }

  ghost predicate Balanced(ts: Tables, c: Counts, inflight: multiset<nat>) {
    Typed(ts, c) && forall o: nat :: ObjectOk(ts, c, inflight, o)
  }

  /** Pipe handles refer to pipes and the others do not. */
  ghost predicate Typed(ts: Tables, c: Counts) {
    forall p: nat, h: nat :: p < |ts| && h < |ts[p]| && ts[p][h].Used? ==>
        (ts[p][h].kind == Other <==> ts[p][h].obj !in c.readers)
  }

  lemma AnyKind(k: Kind)
    ensures k in ANY
  {
    match k
    case Other =>
    case PipeRead =>
    case PipeWrite =>
  }

  /** Types stay right when an object that nothing refers to stops being a pipe. */
  lemma FreedTyped(ts: Tables, c: Counts, c': Counts, o: nat)
    requires Typed(ts, c) && Slots(ts, o, ANY) == {}
    requires forall x: nat :: x != o ==> (x in c'.readers <==> x in c.readers)
    ensures Typed(ts, c')
  {
    NotHeld(ts, o);
    forall p: nat, h: nat | p < |ts| && h < |ts[p]| && ts[p][h].Used?
      ensures ts[p][h].kind == Other <==> ts[p][h].obj !in c'.readers
    {
      assert !Holds(ts, p, h, o);
    }
  }

  lemma HeldIsLive(ts: Tables, c: Counts, inflight: multiset<nat>, p: nat, h: nat)
    requires Balanced(ts, c, inflight) && p < |ts| && h < |ts[p]| && ts[p][h].Used?
    ensures
      var e := ts[p][h];
      e.obj in c.refs && c.refs[e.obj] > 0
      && (e.kind == Other <==> e.obj !in c.readers) && (e.obj in c.readers <==> e.obj in c.writers)
  {
    var e := ts[p][h];
    assert ObjectOk(ts, c, inflight, e.obj);
    AnyKind(e.kind);
    assert (p, h) in Slots(ts, e.obj, ANY);
  }

  lemma GetBalanced(ts: Tables, c: Counts, inflight: multiset<nat>, o: nat)
    requires Balanced(ts, c, inflight) && o in c.refs
    ensures Balanced(ts, Get(c, o), inflight + multiset{o})
  {
    hide Slots;
    forall x: nat
      ensures ObjectOk(ts, Get(c, o), inflight + multiset{o}, x)
    {
      assert ObjectOk(ts, c, inflight, x);
    }
  }

  lemma PutBalanced(ts: Tables, c: Counts, inflight: multiset<nat>, o: nat)
    requires Balanced(ts, c, inflight) && o in inflight
    ensures o in c.refs && c.refs[o] > 0 && Balanced(ts, Put(c, o), inflight - multiset{o})
  {
    hide Slots;
    assert ObjectOk(ts, c, inflight, o);
    var c', inflight' := Put(c, o), inflight - multiset{o};
    if c.refs[o] == 1 {
      FreedTyped(ts, c, c', o);
    }
    forall x: nat
      ensures ObjectOk(ts, c', inflight', x)
    {
      assert ObjectOk(ts, c, inflight, x);
    }
  }

  lemma NotHeld(ts: Tables, o: nat)
    requires Slots(ts, o, ANY) == {}
    ensures forall p: nat, h: nat :: p < |ts| && h < |ts[p]| ==> !Holds(ts, p, h, o)
  {
    forall p: nat, h: nat | p < |ts| && h < |ts[p]|
      ensures !Holds(ts, p, h, o)
    {
      if ts[p][h].Used? {
        AnyKind(ts[p][h].kind);
      }
      assert Holds(ts, p, h, o) ==> (p, h) in Slots(ts, o, ANY);
    }
  }

  lemma OpenBalanced(ts: Tables, ts': Tables, c: Counts, inflight: multiset<nat>, p: nat, h: nat, e: Entry)
    requires Balanced(ts, c, inflight) && Placed(ts, ts', p, h, e) && e.Used? && e.obj in c.refs
    requires (e.kind == Other <==> e.obj !in c.readers) && (e.obj in c.readers <==> e.obj in c.writers)
    ensures Balanced(ts', Open(c, e.kind, e.obj), inflight)
  {
    hide Slots, Placed, Typed;
    forall o: nat
      ensures ObjectOk(ts', Open(c, e.kind, e.obj), inflight, o)
    {
      assert ObjectOk(ts, c, inflight, o);
      AnyKind(e.kind);
      PlacedCount(ts, ts', p, h, e, o, ANY);
      PlacedCount(ts, ts', p, h, e, o, {PipeRead});
      PlacedCount(ts, ts', p, h, e, o, {PipeWrite});
    }
    PlacedTyped(ts, ts', c, Open(c, e.kind, e.obj), p, h, e);
  }

  lemma PlacedTyped(ts: Tables, ts': Tables, c: Counts, c': Counts, p: nat, h: nat, e: Entry)
    requires Typed(ts, c) && Placed(ts, ts', p, h, e) && e.Used? && (e.kind == Other <==> e.obj !in c.readers)
    requires c'.readers.Keys == c.readers.Keys
    ensures Typed(ts', c')
  {
  }

  lemma PlacedCount(ts: Tables, ts': Tables, p: nat, h: nat, e: Entry, o: nat, kinds: set<Kind>)
    requires Placed(ts, ts', p, h, e) && e.Used?
    ensures |Slots(ts', o, kinds)| == |Slots(ts, o, kinds)| + (if e.obj == o && e.kind in kinds then 1 else 0)
    ensures e.obj != o ==> Slots(ts', o, kinds) == Slots(ts, o, kinds)
  {
    PlacedSlots(ts, ts', p, h, e, o, kinds);
  }

  lemma DestroyBalanced(ts: Tables, c: Counts, inflight: multiset<nat>, p: nat, h: nat)
    requires Balanced(ts, c, inflight) && p < |ts| && h < |ts[p]| && ts[p][h].Used?
    ensures
      var e := ts[p][h];
      e.obj in c.refs && c.refs[e.obj] > 0 && (e.kind != Other ==> e.obj in c.readers && e.obj in c.writers)
      && Balanced(ts[p := ts[p][h := Empty]], Destroy(c, e.kind, e.obj), inflight)
  {
    hide Slots;
    HeldIsLive(ts, c, inflight, p, h);
    var e := ts[p][h];
    AnyKind(e.kind);
    var ts', c' := ts[p := ts[p][h := Empty]], Destroy(c, e.kind, e.obj);
    forall o: nat
      ensures ObjectOk(ts', c', inflight, o)
    {
      assert ObjectOk(ts, c, inflight, o);
      ClearedCount(ts, p, h, o, ANY);
      ClearedCount(ts, p, h, o, {PipeRead});
      ClearedCount(ts, p, h, o, {PipeWrite});
    }
    assert Typed(ts', c);
    if c.refs[e.obj] == 1 {
      assert ObjectOk(ts', c', inflight, e.obj);
      FreedTyped(ts', c, c', e.obj);
    }
  }

  lemma ClearedCount(ts: Tables, p: nat, h: nat, o: nat, kinds: set<Kind>)
    requires p < |ts| && h < |ts[p]| && ts[p][h].Used?
    ensures var n := if ts[p][h].obj == o && ts[p][h].kind in kinds then 1 else 0;
            |Slots(ts, o, kinds)| == |Slots(ts[p := ts[p][h := Empty]], o, kinds)| + n
            && (Slots(ts, o, kinds) == {} ==> Slots(ts[p := ts[p][h := Empty]], o, kinds) == {})
            && (|Slots(ts, o, kinds)| == n ==> Slots(ts[p := ts[p][h := Empty]], o, kinds) == {})
  {
    ClearedSlots(ts, p, h, o, kinds);
    if ts[p][h].obj == o && ts[p][h].kind in kinds {
      assert (p, h) in Slots(ts, o, kinds);
    } else {
      assert (p, h) !in Slots(ts, o, kinds);
    }
  }

  // --------------------------------------------------------------------- rights

  /** Some handle to `o` carries right `r`. */
  ghost predicate Carried(ts: Tables, o: nat, r: Right) {
    exists p: nat, h: nat :: Holds(ts, p, h, o) && r in ts[p][h].rights
  }

  ghost predicate HeldBy(ts: Tables, o: nat, p: nat) {
    exists h: nat :: Holds(ts, p, h, o)
  }

  /** No right on `o` appears that no handle had; and without a transferable handle no new process
      comes to hold it. */
  ghost predicate Attenuates(ts: Tables, ts': Tables, o: nat) {
    && (forall r: Right :: Carried(ts', o, r) ==> Carried(ts, o, r))
    && (!Carried(ts, o, Transfer) ==> forall p: nat :: HeldBy(ts', o, p) ==> HeldBy(ts, o, p))
  }

  /** The rights a transfer leaves: never more than there were, and of those the ones the mask names. */
  function Granted(rights: set<Right>, mask: Mask): (granted: set<Right>)
    ensures granted <= rights
    ensures forall r :: r in granted <==> r in rights && (mask.Inherit? || r in mask.rights)
  {
    if mask == Inherit then rights else rights * mask.rights
  }

  lemma PlacedHolds(ts: Tables, ts': Tables, p: nat, h: nat, e: Entry, q: nat, i: nat, o: nat)
    requires Placed(ts, ts', p, h, e) && Holds(ts', q, i, o)
    ensures if q == p && i == h then ts'[q][i] == e else Holds(ts, q, i, o) && ts'[q][i] == ts[q][i]
  {
  }

  /** A new handle made from one in slot `h0` of process `p0`. */
  lemma PlacedAttenuates(ts: Tables, ts': Tables, p: nat, h: nat, e: Entry, p0: nat, h0: nat, o: nat)
    requires Placed(ts, ts', p, h, e) && e.Used? && Holds(ts, p0, h0, e.obj) && e.rights <= ts[p0][h0].rights
    requires p == p0 || Transfer in ts[p0][h0].rights
    ensures Attenuates(ts, ts', o)
  {
    hide Placed;
    forall r: Right | Carried(ts', o, r)
      ensures Carried(ts, o, r)
    {
      var q: nat, i: nat :| Holds(ts', q, i, o) && r in ts'[q][i].rights;
      PlacedHolds(ts, ts', p, h, e, q, i, o);
      assert q == p && i == h ==> Holds(ts, p0, h0, o) && r in ts[p0][h0].rights;
    }
    forall q: nat | HeldBy(ts', o, q) && !Carried(ts, o, Transfer)
      ensures HeldBy(ts, o, q)
    {
      var i: nat :| Holds(ts', q, i, o);
      PlacedHolds(ts, ts', p, h, e, q, i, o);
      assert q == p && i == h ==> Holds(ts, p0, h0, o);
    }
  }

  /** Handles that only go away. */
  lemma FewerAttenuates(ts: Tables, ts': Tables, o: nat)
    requires forall q: nat, i: nat :: Holds(ts', q, i, o) ==> Holds(ts, q, i, o) && ts'[q][i] == ts[q][i]
    ensures Attenuates(ts, ts', o)
  {
    forall r: Right | Carried(ts', o, r)
      ensures Carried(ts, o, r)
    {
      var q: nat, i: nat :| Holds(ts', q, i, o) && r in ts'[q][i].rights;
      assert Holds(ts, q, i, o);
    }
    forall p: nat | HeldBy(ts', o, p)
      ensures HeldBy(ts, o, p)
    {
      var i: nat :| Holds(ts', p, i, o);
      assert Holds(ts, p, i, o);
    }
  }

  lemma ClearedAttenuates(ts: Tables, p: nat, h: nat, o: nat)
    requires p < |ts| && h < |ts[p]|
    ensures Attenuates(ts, ts[p := ts[p][h := Empty]], o)
  {
    FewerAttenuates(ts, ts[p := ts[p][h := Empty]], o);
  }

  /** A handle to some other object leaves `o` alone. */
  lemma OtherAttenuates(ts: Tables, ts': Tables, p: nat, h: nat, e: Entry, o: nat)
    requires Placed(ts, ts', p, h, e) && e.Used? && e.obj != o
    ensures Attenuates(ts, ts', o)
  {
    FewerAttenuates(ts, ts', o);
  }

  lemma AttenuatesTwice(ts: Tables, ts': Tables, ts'': Tables, o: nat)
    requires Attenuates(ts, ts', o) && Attenuates(ts', ts'', o)
    ensures Attenuates(ts, ts'', o)
  {
  }

  /** `ts'` is `ts` with the listed handles of `src` that could be transferred entered in `dst`, at the
      free slots `out`, with the rights that were granted; nothing else has changed. */
  ghost predicate Arrived(ts: Tables, ts': Tables, src: nat, hs: seq<(nat, Mask)>, dst: nat, out: seq<Option<nat>>) {
    && |out| == |hs| && |ts'| == |ts|
    && (forall q: nat, i: nat :: InUse(ts, q, i) ==> InUse(ts', q, i) && ts'[q][i] == ts[q][i])
    && (forall q: nat, i: nat :: InUse(ts', q, i) && !InUse(ts, q, i) ==> q == dst && Some(i) in out)
    && (forall k: nat :: k < |out| && out[k].Some? ==> ArrivedAt(ts, ts', src, hs[k], dst, out[k].value))
    && (forall j: nat, k: nat :: j < k < |out| && out[j].Some? ==> out[j] != out[k])
  }

  ghost predicate InUse(ts: Tables, p: nat, h: nat) {
    p < |ts| && h < |ts[p]| && ts[p][h].Used?
  }

  ghost predicate ArrivedAt(ts: Tables, ts': Tables, src: nat, h: (nat, Mask), dst: nat, i: nat) {
    && !InUse(ts, dst, i) && InUse(ts', dst, i) && InUse(ts', src, h.0)
    && ts'[dst][i] == ts'[src][h.0].(rights := Granted(ts'[src][h.0].rights, h.1))
    && (src == dst || Transfer in ts'[src][h.0].rights)
  }

  ghost predicate MayGo(ts: Tables, src: nat, h: nat, dst: nat) {
    InUse(ts, src, h) && dst < |ts| && |ts[dst]| > 0 && (src == dst || Transfer in ts[src][h].rights)
  }

  /** One handle of a list: it arrives iff it may go and there is room for it, and nothing else changes. */
  ghost predicate Passes(ts: Tables, ts': Tables, src: nat, h: (nat, Mask), dst: nat, out: Option<nat>, grow: bool) {
    if MayGo(ts, src, h.0, dst) && CanEnter(ts[dst], INVALID, grow) then
      out.Some? && Placed(ts, ts', dst, out.value, ts[src][h.0].(rights := Granted(ts[src][h.0].rights, h.1)))
    else
      out.None? && ts' == ts
  }

  lemma NoneArrived(ts: Tables, src: nat, dst: nat)
    ensures Arrived(ts, ts, src, [], dst, [])
  {
  }

  lemma OnePassedOver(ts: Tables, ts': Tables, src: nat, hs: seq<(nat, Mask)>, dst: nat, out: seq<Option<nat>>,
                      h: (nat, Mask))
    requires Arrived(ts, ts', src, hs, dst, out)
    ensures Arrived(ts, ts', src, hs + [h], dst, out + [None])
  {
    forall i: nat | Some(i) in out
      ensures Some(i) in out + [None]
    {
    }
  }

  lemma OneArrived(ts: Tables, mid: Tables, ts': Tables, src: nat, hs: seq<(nat, Mask)>, dst: nat,
                   out: seq<Option<nat>>, h: (nat, Mask), i: nat)
    requires Arrived(ts, mid, src, hs, dst, out) && InUse(mid, src, h.0)
    requires Placed(mid, ts', dst, i, mid[src][h.0].(rights := Granted(mid[src][h.0].rights, h.1)))
    requires src == dst || Transfer in mid[src][h.0].rights
    ensures Arrived(ts, ts', src, hs + [h], dst, out + [Some(i)])
  {
    var out' := out + [Some(i)];
    PlacedInUse(mid, ts', dst, i, mid[src][h.0].(rights := Granted(mid[src][h.0].rights, h.1)));
    forall k: nat | k < |out'| && out'[k].Some?
      ensures ArrivedAt(ts, ts', src, (hs + [h])[k], dst, out'[k].value)
    {
      if k < |out| {
        assert out[k] == out'[k] && ArrivedAt(ts, mid, src, hs[k], dst, out[k].value);
      }
    }
    forall j: nat, k: nat | j < k < |out'| && out'[j].Some?
      ensures out'[j] != out'[k]
    {
      assert ArrivedAt(ts, mid, src, hs[j], dst, out[j].value);
    }
  }

  lemma PlacedInUse(ts: Tables, ts': Tables, p: nat, h: nat, e: Entry)
    requires Placed(ts, ts', p, h, e) && e.Used?
    ensures !InUse(ts, p, h) && InUse(ts', p, h) && ts'[p][h] == e
    ensures forall q: nat, i: nat :: !(q == p && i == h) ==>
              (InUse(ts', q, i) <==> InUse(ts, q, i)) && (InUse(ts, q, i) ==> ts'[q][i] == ts[q][i])
  {
  }

  /** An object lives as long as some slot or some reference in flight refers to it. */
  lemma LiveIffHeld(ts: Tables, c: Counts, inflight: multiset<nat>, o: nat)
    requires Balanced(ts, c, inflight)
    ensures o in c.refs <==> Slots(ts, o, ANY) != {} || inflight[o] > 0
  {
    assert ObjectOk(ts, c, inflight, o);
  }

  // --------------------------------------------------------------------- table growth

  const TABLE_SIZE := 1024
  const ENTRY_SIZE := 28

  /** Heap blocks lie in the kernel's gigabyte of virtual addresses. */
  const KERNEL_SPACE := 0x4000_0000

  /** The bytes asked for `n` entries, in 32-bit arithmetic. */
  function TableBytes(n: nat): nat {
    n * ENTRY_SIZE % UINT32
  }

  /** The new capacity for a slot beyond the table, in 32-bit arithmetic. */
  function NewCapacity(capacity: nat, hint: nat): nat {
    var n := (hint + 16) % UINT32;
    if n < capacity * 2 % UINT32 then capacity * 2 % UINT32 else n
  }

  /** Neither the size of `n` entries nor that size with the block header overflows. */
  predicate Sizeable(n: nat) {
    n * ENTRY_SIZE + Kmalloc.HEADER < UINT32
  }

  /** The pages of the block that holds a table of this capacity. */
  function TablePages(capacity: nat): nat {
    Kmalloc.PagesFor(TableBytes(capacity))
  }

  /** `krealloc` answers with a block: the old one if the size fits it, otherwise a new one. `grow` says
      whether the pages for a new one were to be had. */
  predicate HeapGives(capacity: nat, n: nat, grow: bool) {
    var size := TableBytes(n);
    size > 0 &&
    (size <= Kmalloc.Room(TablePages(capacity))
     || (grow && 0 < Kmalloc.PagesFor(size) * PageAllocator.PAGE_SIZE <= KERNEL_SPACE))
  }

  /** The room of that block. */
  function BlockRoom(capacity: nat, n: nat): int {
    if TableBytes(n) <= Kmalloc.Room(TablePages(capacity)) then Kmalloc.Room(TablePages(capacity))
    else Kmalloc.Room(Kmalloc.PagesFor(TableBytes(n)))
  }

  /** It holds all `n` entries iff their size, with the header, does not overflow. */
  lemma TableFitsItsBlock(capacity: nat, n: nat, grow: bool)
    requires Fits(capacity) && HeapGives(capacity, n, grow)
    ensures BlockRoom(capacity, n) >= n * ENTRY_SIZE <==> Sizeable(n)
  {
    if TableBytes(n) > Kmalloc.Room(TablePages(capacity)) {
      Kmalloc.KmallocRoom(TableBytes(n));
    }
  }

  /** A table of this capacity is a heap block. */
  predicate Fits(capacity: nat) {
    0 < capacity && capacity * ENTRY_SIZE + Kmalloc.HEADER <= KERNEL_SPACE
  }

  /** A table that grew to a size that does not overflow is a heap block again. */
  lemma GrownFits(capacity: nat, n: nat, grow: bool)
    requires Fits(capacity) && HeapGives(capacity, n, grow) && Sizeable(n)
    ensures Fits(n)
  {
    hide Kmalloc.PagesFor;
    TableFitsItsBlock(capacity, n, grow);
    PagesInSpace(capacity);
    assert BlockRoom(capacity, n) + Kmalloc.HEADER <= KERNEL_SPACE;
  }

  lemma PagesInSpace(capacity: nat)
    requires Fits(capacity)
    ensures 0 < TablePages(capacity) * PageAllocator.PAGE_SIZE <= KERNEL_SPACE
  {
  }

  /** A table that grows within its block keeps a block of the size a fresh one would have. */
  lemma BlockStays(capacity: nat, n: nat)
    requires Fits(capacity) && capacity <= n && Sizeable(n) && TableBytes(n) <= Kmalloc.Room(TablePages(capacity))
    ensures TablePages(n) == TablePages(capacity)
  {
    hide Kmalloc.PagesFor;
    PagesInSpace(capacity);
    PagesOf(capacity);
    PagesOf(n);
  }

  /** The least number of pages that hold the entries and the header. */
  lemma PagesOf(n: nat)
    requires n * ENTRY_SIZE + Kmalloc.HEADER <= KERNEL_SPACE
    ensures TableBytes(n) == n * ENTRY_SIZE
    ensures var size := n * ENTRY_SIZE + Kmalloc.HEADER;
            size <= TablePages(n) * PageAllocator.PAGE_SIZE < size + PageAllocator.PAGE_SIZE
  {
  }

  lemma DoubleFits(capacity: nat, grow: bool)
    requires Fits(capacity) && HeapGives(capacity, capacity * 2, grow)
    ensures Fits(capacity * 2)
  {
    hide HeapGives;
    GrownFits(capacity, capacity * 2, grow);
  }

  /** The slot asked for lies in the grown table, and all of that table is allocated. */
  predicate SlotInTable(capacity: nat, hint: nat) {
    hint < capacity || (hint + 16 < UINT32 && Sizeable(Larger(hint + 16, capacity * 2)))
  }

  function Larger(a: nat, b: nat): nat { if a < b then b else a }

  /** The call goes outside the table: the size came out as 0 and the table is freed, or the block that
      the heap gave does not hold the new table, or that table does not have the slot. */
  predicate Overruns(capacity: nat, hint: nat, grow: bool) {
    var n := NewCapacity(capacity, hint);
    hint != INVALID && hint >= capacity &&
    (TableBytes(n) == 0
     || (HeapGives(capacity, n, grow) && !(hint < n && n * ENTRY_SIZE <= BlockRoom(capacity, n))))
  }

  /** That is so iff the new capacity or its size overflows and the heap does not refuse. */
  lemma OverrunsIff(capacity: nat, hint: nat, grow: bool)
    requires Fits(capacity) && hint < UINT32
    ensures var n := NewCapacity(capacity, hint);
            Overruns(capacity, hint, grow) <==>
              hint != INVALID && !SlotInTable(capacity, hint) && (TableBytes(n) == 0 || HeapGives(capacity, n, grow))
    ensures hint != INVALID && hint >= capacity && SlotInTable(capacity, hint) ==>
              NewCapacity(capacity, hint) == Larger(hint + 16, capacity * 2)
  {
    var n := NewCapacity(capacity, hint);
    if HeapGives(capacity, n, grow) {
      TableFitsItsBlock(capacity, n, grow);
    }
  }

  /** Five hints that miss the table: the capacity overflows; its size overflows, which even a heap
      without a free page answers with the old block; the size comes out as 0 and the table is freed;
      only the header makes the size overflow, so that one page is handed out. */
  lemma HintsOutsideTheTable()
    ensures NewCapacity(TABLE_SIZE, 0xFFFF_FFF0) == 2048 && Overruns(TABLE_SIZE, 0xFFFF_FFF0, true)
    ensures NewCapacity(TABLE_SIZE, 153391674) == 153391690 && TableBytes(153391690) == 24
    ensures Overruns(TABLE_SIZE, 153391674, true) && Overruns(TABLE_SIZE, 153391674, false)
    ensures TableBytes(NewCapacity(TABLE_SIZE, 0x3FFF_FFF0)) == 0 && Overruns(TABLE_SIZE, 0x3FFF_FFF0, false)
    ensures TableBytes(NewCapacity(TABLE_SIZE, 153391673)) == 0xFFFF_FFFC
    ensures BlockRoom(TABLE_SIZE, 153391689) == 4088 && Overruns(TABLE_SIZE, 153391673, true)
  {
    hide Overruns, HeapGives, Fits;
    FirstTable();
    Misses(0xFFFF_FFF0, 57344, 15, true);
    Misses(153391674, 24, 1, true);
    Misses(153391674, 24, 1, false);
    Misses(0x3FFF_FFF0, 0, 1, false);
    Misses(153391673, 0xFFFF_FFFC, 1, true);
  }

  lemma FirstTable()
    ensures Fits(TABLE_SIZE) && TablePages(TABLE_SIZE) == 8 && Kmalloc.Room(8) == 32760
  {
  }

  /** A hint whose size overflows, for a table of the first size. */
  lemma Misses(hint: nat, size: nat, pages: nat, grow: bool)
    requires TABLE_SIZE <= hint < INVALID && !SlotInTable(TABLE_SIZE, hint)
    requires size == TableBytes(NewCapacity(TABLE_SIZE, hint)) && pages == Kmalloc.PagesFor(size)
    requires size <= 32760 || (grow && 0 < pages * PageAllocator.PAGE_SIZE <= KERNEL_SPACE)
    ensures Overruns(TABLE_SIZE, hint, grow)
  {
    hide Overruns, SlotInTable, NewCapacity, TableBytes, Kmalloc.PagesFor;
    FirstTable();
    OverrunsIff(TABLE_SIZE, hint, grow);
  }

  /** A handle can be entered in the table, at the slot asked for if there is one. */
  ghost predicate CanEnter(t: seq<Entry>, hint: nat, grow: bool) {
    if hint != INVALID && hint >= |t| then HeapGives(|t|, NewCapacity(|t|, hint), grow)
    else (hint != INVALID && t[hint] == Empty) || HasFree(t) || HeapGives(|t|, |t| * 2, grow)
  }

  /** Both ends of a pipe can be entered, one after the other. */
  ghost predicate CanEnterTwo(t: seq<Entry>, obj: nat, grow: bool, grow': bool) {
    && |t| > 0 && CanEnter(t, INVALID, grow)
    && CanEnter(Entered(t, Used(PipeRead, obj, RIGHT_ALL)), INVALID, grow')
  }

  ghost predicate HasFree(t: seq<Entry>) {
    exists i: nat :: i < |t| && t[i] == Empty
  }

  /** A hint whose table size does not overflow. */
  predicate ModestHint(hint: nat) {
    hint == INVALID || Sizeable(hint + 16)
  }

  /** Every table is a heap block. */
  ghost predicate Capped(ts: Tables) {
    forall p: nat :: p < |ts| && |ts[p]| > 0 ==> Fits(|ts[p]|)
  }

  // --------------------------------------------------------------------- the operations

  /** The first free slot, or the end of the table. */
  function FirstFree(t: seq<Entry>): (h: nat)
    ensures h <= |t| && (h < |t| ==> t[h] == Empty) && forall i: nat :: i < h ==> t[i].Used?
  {
    if t == [] || t[0] == Empty then 0 else 1 + FirstFree(t[1..])
  }

  /** The table with `e` in its first free slot; a full table is doubled first. */
  function Entered(t: seq<Entry>, e: Entry): seq<Entry>
    requires |t| > 0
  {
    var h := FirstFree(t);
    (if h < |t| then t else Grown(t, |t| * 2))[h := e]
  }

  /** The search for a free slot. */
  method FindFree(t: seq<Entry>) returns (found: bool, h: nat)
    ensures found ==> h < |t| && t[h] == Empty
    ensures forall i: nat :: i < (if found then h else |t|) ==> t[i].Used?
  {
    for i := 0 to |t|
      invariant forall j: nat :: j < i ==> t[j].Used?
    {
      if t[i] == Empty {
        return true, i;
      }
    }
    return false, 0;
  }

  function Grown(t: seq<Entry>, capacity: nat): (r: seq<Entry>)
    requires |t| <= capacity
    ensures |r| == capacity && forall i: nat :: i < capacity ==> r[i] == if i < |t| then t[i] else Empty
  {
    t + seq(capacity - |t|, _ => Empty)
  }

  /** The operations on handles. Messages and spawning transfer lists of handles. `obj` is the address
      the heap gives for a new object. */
  datatype Op =
    | TableOp(grow: bool)
    | ObjectOp(p: nat, obj: nat, grow: bool)
    | PipeOp(p: nat, obj: nat, grow: bool, grow': bool)
    | CloseOp(p: nat, h: nat)
    | DuplicateOp(p: nat, h: nat, hint: nat, named: bool, grow: bool)
    | GrantOp(capable: bool, src: nat, h: nat, dst: nat, mask: Mask, named: bool, grow: bool)
    | MessageOp(src: nat, hs: seq<(nat, Mask)>, dst: nat, grows: seq<bool>)
    | AcquireOp(p: nat, h: nat, expected: Option<Kind>)
    | PutOp(obj: nat)
    | ExitOp(p: nat)

  function Creates(op: Op): set<nat> {
    match op
    case ObjectOp(_, obj, _) => {obj}
    case PipeOp(_, obj, _, _) => {obj}
    case _ => {}
  }

  /** What an operation does to the tables, when the objects in `live` exist. */
  ghost predicate Does(op: Op, live: set<nat>, ts: Tables, ts': Tables) {
    match op
    case TableOp(grow) => ts' == if grow then ts + [seq(TABLE_SIZE, _ => Empty)] else ts
    case ObjectOp(p, obj, grow) =>
      if p < |ts| && |ts[p]| > 0 && obj !in live && CanEnter(ts[p], INVALID, grow) then
        exists h :: Placed(ts, ts', p, h, Used(Other, obj, RIGHT_ALL))
      else ts' == ts
    case PipeOp(p, obj, grow, grow') =>
      if p < |ts| && obj !in live && CanEnterTwo(ts[p], obj, grow, grow') then
        && HasEntry(ts', p, Used(PipeRead, obj, RIGHT_ALL)) && HasEntry(ts', p, Used(PipeWrite, obj, RIGHT_ALL))
      else SameHolders(ts, ts')
    case CloseOp(p, h) => ts' == if p < |ts| && h < |ts[p]| then ts[p := ts[p][h := Empty]] else ts
    case DuplicateOp(p, h, hint, named, grow) =>
      if InUse(ts, p, h) && Duplicate in ts[p][h].rights && named && CanEnter(ts[p], hint, grow) then
        exists h' :: Placed(ts, ts', p, h', ts[p][h])
      else ts' == ts
    case GrantOp(capable, src, h, dst, mask, named, grow) =>
      if capable && named && MayGo(ts, src, h, dst) && Transfer in ts[src][h].rights && CanEnter(ts[dst], INVALID, grow)
      then exists h' :: Placed(ts, ts', dst, h', ts[src][h].(rights := Granted(ts[src][h].rights, mask)))
      else ts' == ts
    case MessageOp(src, hs, dst, grows) =>
      if |grows| == |hs| then exists out :: Arrived(ts, ts', src, hs, dst, out) else ts' == ts
    case AcquireOp(_, _, _) => ts' == ts
    case PutOp(_) => ts' == ts
    case ExitOp(p) => ts' == if p < |ts| then ts[p := []] else ts
  }

  /** The references in flight after an operation: one more after an acquire that finds the handle, one less
      after a put. */
  function InFlight(op: Op, ts: Tables, inflight: multiset<nat>): multiset<nat> {
    match op
    case AcquireOp(p, h, expected) =>
      if p < |ts| && h < |ts[p]| && ts[p][h].Used? && (expected.None? || ts[p][h].kind == expected.value) then
        inflight + multiset{ts[p][h].obj}
      else inflight
    case PutOp(obj) => inflight - multiset{obj}
    case _ => inflight
  }

  /** The states of a run: each operation does its part from one to the next. */
  ghost predicate Performed(ops: seq<Op>, states: seq<(Tables, set<nat>)>) {
    && |states| == |ops| + 1
    && forall k :: 0 <= k < |ops| ==> Does(ops[k], states[k].1, states[k].0, states[k + 1].0)
  }

  ghost predicate HasEntry(ts: Tables, p: nat, e: Entry) {
    p < |ts| && e in ts[p]
  }

  class System {
    var tables: Tables
    var counts: Counts
    var inflight: multiset<nat>

    ghost predicate Valid()
      reads this
    {
      Balanced(tables, counts, inflight) && Capped(tables)
    }

    constructor ()
      ensures Valid() && tables == [] && inflight == multiset{}
    {
      tables, counts, inflight := [], Counts(map[], map[], map[]), multiset{};
    }

    /** A process without a table has an empty one. */
    predicate HasTable(p: nat)
      reads this
    {
      p < |tables| && |tables[p]| > 0
    }

    /** The first free slot, or a slot of the grown table. Rights are all set. */
    method HandleAlloc(p: nat, kind: Kind, obj: nat, grow: bool) returns (ok: bool, h: nat)
      requires p < |tables| && Capped(tables)
      modifies this`tables
      ensures Capped(tables)
      ensures ok ==> Placed(old(tables), tables, p, h, Used(kind, obj, RIGHT_ALL))
      ensures ok ==> h == FirstFree(old(tables)[p]) && |old(tables)[p]| > 0
                     && tables[p] == Entered(old(tables)[p], Used(kind, obj, RIGHT_ALL))
      ensures !ok ==> tables == old(tables)
      ensures ok <==> old(HasTable(p)) && CanEnter(old(tables)[p], INVALID, grow)
    {
      hide HeapGives;
      if !HasTable(p) {
        return false, 0;
      }
      assert Fits(|tables[p]|) && |tables[p]| * 2 < UINT32;
      ok, h := FindFree(tables[p]);
      if !ok {
        var capacity := |tables[p]| * 2 % UINT32;
        if !HeapGives(|tables[p]|, capacity, grow) {
          return;
        }
        DoubleFits(|tables[p]|, grow);
        h := |tables[p]|;
        tables := tables[p := Grown(tables[p], capacity)];
        ok := true;
      }
      tables := tables[p := tables[p][h := Used(kind, obj, RIGHT_ALL)]];
    }

    /** The slot asked for, if it is free. When the call goes outside the table, `outside` is set and
        nothing is promised. */
    method HandleAllocAt(p: nat, kind: Kind, obj: nat, hint: nat, grow: bool)
      returns (ok: bool, h: nat, outside: bool)
      requires HasTable(p) && Capped(tables) && hint < UINT32
      modifies this`tables
      ensures outside <==> Overruns(|old(tables)[p]|, hint, grow)
      ensures !outside ==> Capped(tables)
      ensures ok ==> !outside && Placed(old(tables), tables, p, h, Used(kind, obj, RIGHT_ALL))
      ensures !outside && !ok ==> tables == old(tables)
      ensures !outside ==> (ok <==> CanEnter(old(tables)[p], hint, grow))
      ensures ok && hint != INVALID && (hint >= |old(tables)[p]| || old(tables)[p][hint] == Empty) ==> h == hint
    {
      outside := false;
      if hint == INVALID {
        ok, h := HandleAlloc(p, kind, obj, grow);
        return;
      }
      if hint >= |tables[p]| {
        var capacity := (hint + 16) % UINT32;
        if capacity < |tables[p]| * 2 % UINT32 {
          capacity := |tables[p]| * 2 % UINT32;
        }
        OverrunsIff(|tables[p]|, hint, grow);
        if Overruns(|tables[p]|, hint, grow) {
          return false, 0, true;
        }
        if !HeapGives(|tables[p]|, capacity, grow) {
          return false, 0, false;
        }
        GrownFits(|tables[p]|, capacity, grow);
        tables := tables[p := Grown(tables[p], capacity)];
      }
      if tables[p][hint].Used? {
        ok, h := HandleAlloc(p, kind, obj, grow);
        return;
      }
      tables := tables[p := tables[p][hint := Used(kind, obj, RIGHT_ALL)]];
      return true, hint, false;
    }

    /** Copies the entry out and takes a reference on its object. */
    method HandleAcquire(p: nat, h: nat, expected: Option<Kind>) returns (ok: bool, e: Entry)
      requires Valid()
      modifies this`counts, this`inflight
      ensures Valid()
      ensures ok <==> p < |tables| && h < |tables[p]| && tables[p][h].Used?
                      && (expected.None? || tables[p][h].kind == expected.value)
      ensures ok ==> e == tables[p][h] && inflight == old(inflight) + multiset{e.obj}
                     && e.obj in old(counts).refs && old(counts).refs[e.obj] > 0 && counts == Get(old(counts), e.obj)
                     && (e.kind == Other <==> e.obj !in old(counts).readers)
                     && (e.obj in old(counts).readers <==> e.obj in old(counts).writers)
      ensures !ok ==> unchanged(this)
    {
      hide Balanced;
      if p >= |tables| || h >= |tables[p]| || tables[p][h] == Empty {
        return false, Empty;
      }
      if expected.Some? && tables[p][h].kind != expected.value {
        return false, Empty;
      }
      e := tables[p][h];
      HeldIsLive(tables, counts, inflight, p, h);
      GetBalanced(tables, counts, inflight, e.obj);
      counts := Get(counts, e.obj);
      inflight := inflight + multiset{e.obj};
      return true, e;
    }

    /** Puts an acquired reference back. */
    method ObjectPut(obj: nat)
      requires Valid() && obj in inflight
      modifies this`counts, this`inflight
      ensures Valid() && inflight == old(inflight) - multiset{obj}
      ensures obj in old(counts).refs && old(counts).refs[obj] > 0 && counts == Put(old(counts), obj)
    {
      hide Balanced;
      PutBalanced(tables, counts, inflight, obj);
      counts := Put(counts, obj);
      inflight := inflight - multiset{obj};
    }

    /** Closes a handle: its object loses one reference, and its pipe one end. */
    method HandleFree(p: nat, h: nat)
      requires Valid()
      modifies this`tables, this`counts
      ensures Valid()
      ensures p < |old(tables)| && h < |old(tables)[p]| ==> tables == old(tables)[p := old(tables)[p][h := Empty]]
      ensures !(p < |old(tables)| && h < |old(tables)[p]|) ==> tables == old(tables) && counts == old(counts)
      ensures forall o: nat :: Attenuates(old(tables), tables, o)
    {
      hide Balanced, Attenuates, Destroy;
      if p >= |tables| || h >= |tables[p]| || tables[p][h] == Empty {
        assert p < |tables| && h < |tables[p]| ==> tables[p][h := Empty] == tables[p];
        NothingAttenuates(tables);
        return;
      }
      var e := tables[p][h];
      DestroyBalanced(tables, counts, inflight, p, h);
      counts := Destroy(counts, e.kind, e.obj);
      tables := tables[p := tables[p][h := Empty]];
      forall o: nat
        ensures Attenuates(old(tables), tables, o)
      {
        ClearedAttenuates(old(tables), p, h, o);
      }
    }

    /** Whether handle `h` of `src` may go to `dst` at all. */
    ghost predicate MayTransfer(src: nat, h: nat, dst: nat)
      reads this
    {
      MayGo(tables, src, h, dst)
    }

    /** A new handle to the same object, with the same rights or fewer. When the slot asked for lies
        outside the table, `outside` is set and nothing is promised. */
    method HandleTransfer(src: nat, srcH: nat, dst: nat, hint: nat, mask: Mask, grow: bool)
      returns (ok: bool, h: nat, outside: bool)
      requires Valid() && hint < UINT32
      modifies this
      ensures outside <==> old(MayTransfer(src, srcH, dst)) && Overruns(|old(tables)[dst]|, hint, grow)
      ensures !outside ==> Valid() && inflight == old(inflight)
      ensures ok ==> !outside
      ensures !outside ==> (ok <==> old(MayTransfer(src, srcH, dst)) && CanEnter(old(tables)[dst], hint, grow))
      ensures !ok && !outside ==> tables == old(tables) && counts == old(counts)
      ensures ok ==> var e := old(tables)[src][srcH];
                     && Placed(old(tables), tables, dst, h, e.(rights := Granted(e.rights, mask)))
                     && e.obj in old(counts).refs && (e.kind != Other ==> e.obj in old(counts).readers)
                     && (e.kind != Other ==> e.obj in old(counts).writers)
                     && counts == Open(old(counts), e.kind, e.obj)
      ensures !outside ==> forall o: nat :: Attenuates(old(tables), tables, o)
    {
      hide Balanced, Attenuates, Placed, Typed, Granted, Get, Put, Open, Overruns, CanEnter;
      NothingAttenuates(tables);
      outside := false;
      if !HasTable(src) || !HasTable(dst) {
        return false, 0, false;
      }
      var e;
      ok, e := HandleAcquire(src, srcH, None);
      if !ok {
        return false, 0, false;
      }
      GetPut(old(counts), e.obj);
      HeldIsLive(tables, counts, inflight, src, srcH);
      if src != dst && Transfer !in e.rights {
        ObjectPut(e.obj);
        return false, 0, false;
      }
      ok, h, outside := HandleAllocAt(dst, e.kind, e.obj, hint, grow);
      if outside {
        return;
      }
      if !ok {
        ObjectPut(e.obj);
        return;
      }
      Install(dst, h, e.(rights := Granted(e.rights, mask)), old(tables), old(counts));
      forall o: nat
        ensures Attenuates(old(tables), tables, o)
      {
        PlacedAttenuates(old(tables), tables, dst, h, e.(rights := Granted(e.rights, mask)), src, srcH, o);
      }
    }

    /** Counts the new handle in slot `h`, puts the acquired reference back and narrows the rights. */
    method Install(p: nat, h: nat, e: Entry, ghost ts: Tables, ghost c: Counts)
      requires e.Used? && Placed(ts, tables, p, h, Used(e.kind, e.obj, RIGHT_ALL)) && Capped(tables)
      requires e.obj in c.refs && c.refs[e.obj] > 0 && counts == Get(c, e.obj) && e.obj in inflight
      requires Balanced(ts, counts, inflight)
      requires (e.kind == Other <==> e.obj !in c.readers) && (e.obj in c.readers <==> e.obj in c.writers)
      modifies this
      ensures Valid() && inflight == old(inflight) - multiset{e.obj}
      ensures Placed(ts, tables, p, h, e) && counts == Open(c, e.kind, e.obj)
    {
      hide Balanced, Placed, Typed, Get, Put, Open;
      GetKeepsEnds(c, e.obj);
      OpenBalanced(ts, tables, counts, inflight, p, h, Used(e.kind, e.obj, RIGHT_ALL));
      OpenPut(c, e.kind, e.obj);
      counts := Open(counts, e.kind, e.obj);
      ObjectPut(e.obj);
      PlacedAgain(ts, tables, p, h, Used(e.kind, e.obj, RIGHT_ALL), e.rights);
      RightsBalanced(tables, counts, inflight, p, h, e.rights);
      tables := tables[p := tables[p][h := e]];
    }

    ghost predicate MayDuplicate(p: nat, h: nat)
      reads this
    {
      HasTable(p) && h < |tables[p]| && tables[p][h].Used? && Duplicate in tables[p][h].rights
    }

    /** A second handle in the same process; needs the right to duplicate. The slot asked for comes from
        the user; when it lies outside the table, nothing is promised. `named` says whether the name, if
        the user gave one, could be read. */
    method HandleDuplicate(p: nat, h: nat, hint: nat, named: bool, grow: bool)
      returns (ok: bool, h': nat, outside: bool)
      requires Valid() && hint < UINT32
      modifies this
      ensures outside <==> old(MayDuplicate(p, h)) && named && Overruns(|old(tables)[p]|, hint, grow)
      ensures !outside ==> Valid() && inflight == old(inflight)
      ensures ok ==> !outside
      ensures !outside ==> (ok <==> old(MayDuplicate(p, h)) && named && CanEnter(old(tables)[p], hint, grow))
      ensures ok ==> Placed(old(tables), tables, p, h', old(tables)[p][h])
      ensures !ok && !outside ==> tables == old(tables) && counts == old(counts)
      ensures !outside ==> forall o: nat :: Attenuates(old(tables), tables, o)
    {
      hide Balanced, Attenuates, Placed, Get, Put, Open, Overruns, CanEnter;
      NothingAttenuates(tables);
      outside := false;
      var e;
      ok, e := HandleAcquire(p, h, None);
      if !ok {
        return false, 0, false;
      }
      GetPut(old(counts), e.obj);
      ObjectPut(e.obj);
      if Duplicate !in e.rights || !named {
        return false, 0, false;
      }
      ok, h', outside := HandleTransfer(p, h, p, hint, Inherit, grow);
    }

    /** A handle for another process; needs the capability and the right to transfer. */
    method Grant(capable: bool, src: nat, h: nat, dst: nat, mask: Mask, named: bool, grow: bool)
      returns (ok: bool, h': nat)
      requires Valid()
      modifies this
      ensures Valid() && inflight == old(inflight)
      ensures ok <==> capable && named && old(MayTransfer(src, h, dst)) && Transfer in old(tables)[src][h].rights
                      && CanEnter(old(tables)[dst], INVALID, grow)
      ensures ok ==> var e := old(tables)[src][h];
                     Placed(old(tables), tables, dst, h', e.(rights := Granted(e.rights, mask)))
      ensures !ok ==> tables == old(tables) && counts == old(counts)
      ensures forall o: nat :: Attenuates(old(tables), tables, o)
    {
      hide Balanced, Attenuates, Placed, Get, Put, Open, Granted, CanEnter;
      NothingAttenuates(tables);
      if !capable {
        return false, 0;
      }
      var e;
      ok, e := HandleAcquire(src, h, None);
      if !ok {
        return false, 0;
      }
      GetPut(old(counts), e.obj);
      ObjectPut(e.obj);
      if Transfer !in e.rights || dst >= |tables| || !named {
        return false, 0;
      }
      var outside;
      ok, h', outside := HandleTransfer(src, h, dst, INVALID, mask, grow);
    }

    /** The handles of a message, or those a new process inherits: each is transferred if it can be
        and passed over if not; `out` says where each arrived, and `mids` are the tables in between. */
    method TransferAll(src: nat, hs: seq<(nat, Mask)>, dst: nat, grow: seq<bool>)
      returns (out: seq<Option<nat>>, ghost mids: seq<Tables>)
      requires Valid() && |grow| == |hs|
      modifies this
      ensures Valid() && inflight == old(inflight)
      ensures Arrived(old(tables), tables, src, hs, dst, out)
      ensures |out| == |hs| && |mids| == |hs| + 1 && mids[0] == old(tables) && mids[|hs|] == tables
      ensures forall k: nat :: k < |hs| ==> Passes(mids[k], mids[k + 1], src, hs[k], dst, out[k], grow[k])
      ensures forall o: nat :: Attenuates(old(tables), tables, o)
    {
      hide Balanced, Attenuates, Placed, Open, Arrived, CanEnter, Granted;
      NothingAttenuates(tables);
      out, mids := [], [tables];
      NoneArrived(tables, src, dst);
      for i := 0 to |hs|
        invariant Valid() && inflight == old(inflight) && |out| == i
        invariant Arrived(old(tables), tables, src, hs[..i], dst, out)
        invariant |mids| == i + 1 && mids[0] == old(tables) && mids[i] == tables
        invariant forall k: nat :: k < i ==> Passes(mids[k], mids[k + 1], src, hs[k], dst, out[k], grow[k])
        invariant forall o: nat :: Attenuates(old(tables), tables, o)
      {
        ghost var before := tables;
        var ok, h, outside := HandleTransfer(src, hs[i].0, dst, INVALID, hs[i].1, grow[i]);
        if ok {
          OneArrived(old(tables), before, tables, src, hs[..i], dst, out, hs[i], h);
        } else {
          OnePassedOver(old(tables), tables, src, hs[..i], dst, out, hs[i]);
        }
        out, mids := out + [if ok then Some(h) else None], mids + [tables];
        assert hs[..i + 1] == hs[..i] + [hs[i]];
        forall o: nat
          ensures Attenuates(old(tables), tables, o)
        {
          AttenuatesTwice(old(tables), before, tables, o);
        }
      }
      assert hs[..|hs|] == hs;
    }

    /** A process exits: every handle it has is closed. */
    method TableDestroy(p: nat)
      requires Valid() && p < |tables|
      modifies this`tables, this`counts
      ensures Valid() && tables == old(tables)[p := []] && inflight == old(inflight)
      ensures forall o: nat :: Attenuates(old(tables), tables, o)
    {
      hide Balanced, Attenuates;
      NothingAttenuates(tables);
      for i := 0 to |tables[p]|
        invariant Valid() && |tables| == |old(tables)| && |tables[p]| == |old(tables)[p]|
        invariant forall j: nat :: j < i ==> tables[p][j] == Empty
        invariant forall q: nat :: q < |tables| && q != p ==> tables[q] == old(tables)[q]
        invariant forall o: nat :: Attenuates(old(tables), tables, o)
      {
        ghost var before := tables;
        HandleFree(p, i);
        forall o: nat
          ensures Attenuates(old(tables), tables, o)
        {
          AttenuatesTwice(old(tables), before, tables, o);
        }
      }
      ghost var before := tables;
      EmptyTableBalanced(tables, counts, inflight, p);
      tables := tables[p := []];
      forall o: nat
        ensures Attenuates(old(tables), tables, o)
      {
        EmptyTableAttenuates(before, p, o);
        AttenuatesTwice(old(tables), before, tables, o);
      }
    }

    /** A new object with one handle, or nothing at all. `obj` is the address the heap gave. */
    method ObjectCreate(p: nat, obj: nat, grow: bool) returns (ok: bool, h: nat)
      requires Valid() && p < |tables| && obj !in counts.refs
      modifies this`tables, this`counts
      ensures Valid()
      ensures !ok ==> tables == old(tables) && counts == old(counts)
      ensures ok ==> Placed(old(tables), tables, p, h, Used(Other, obj, RIGHT_ALL))
                     && counts == old(counts).(refs := old(counts).refs[obj := 1])
      ensures ok <==> old(HasTable(p)) && CanEnter(old(tables)[p], INVALID, grow)
      ensures forall o: nat :: o != obj || !ok ==> Attenuates(old(tables), tables, o)
    {
      hide Balanced, Attenuates, Placed;
      NothingAttenuates(tables);
      ok, h := HandleAlloc(p, Other, obj, grow);
      if !ok {
        return;
      }
      NewObjectBalanced(old(tables), tables, counts, inflight, p, h, obj);
      counts := counts.(refs := counts.refs[obj := 1]);
      forall o: nat | o != obj
        ensures Attenuates(old(tables), tables, o)
      {
        OtherAttenuates(old(tables), tables, p, h, Used(Other, obj, RIGHT_ALL), o);
      }
    }

    /** A new pipe with a handle for either end, or nothing at all: whichever handle cannot be had, the
        pipe is gone again and every count is as before. */
    method PipeCreate(p: nat, obj: nat, grow: bool, grow': bool) returns (ok: bool, r: nat, w: nat)
      requires Valid() && p < |tables| && obj !in counts.refs
      modifies this`tables, this`counts
      ensures Valid()
      ensures !ok ==> counts == old(counts) && SameHolders(old(tables), tables)
      ensures ok <==> old(HasTable(p)) && CanEnterTwo(old(tables)[p], obj, grow, grow')
      ensures ok ==> counts == NewPipe(old(counts), obj, 2, 1, 1)
      ensures ok ==> p < |tables| && r < |tables[p]| && w < |tables[p]| && r != w
                     && tables[p][r] == Used(PipeRead, obj, RIGHT_ALL)
                     && tables[p][w] == Used(PipeWrite, obj, RIGHT_ALL)
      ensures forall o: nat :: o != obj || !ok ==> Attenuates(old(tables), tables, o)
    {
      hide Balanced, Capped, Attenuates, Placed, SameHolders, NewPipe;
      NothingAttenuates(tables);
      w := 0;
      FreshBalanced(tables, counts, inflight, obj);
      counts := NewPipe(counts, obj, 2, 1, 1);
      ok, r := HandleAlloc(p, PipeRead, obj, grow);
      if !ok {
        NewPipeGone(old(counts), obj);
        counts := Counts(counts.refs - {obj}, counts.readers - {obj}, counts.writers - {obj});
        NothingMoves(tables);
        return;
      }
      ReadEndBalanced(old(tables), tables, old(counts), inflight, p, r, obj);
      PlacedEntry(old(tables), tables, p, r, Used(PipeRead, obj, RIGHT_ALL));
      ok, w := SecondEnd(p, obj, r, grow', old(tables), old(counts));
    }

    /** The write end of a pipe whose read end has its handle in slot `r`. Without it the read end is
        closed twice, which drops both references. */
    method SecondEnd(p: nat, obj: nat, r: nat, grow: bool, ghost ts: Tables, ghost c: Counts) returns (ok: bool, w: nat)
      requires Placed(ts, tables, p, r, Used(PipeRead, obj, RIGHT_ALL)) && Capped(tables) && p < |tables|
      requires Balanced(tables, NewPipe(c, obj, 2, 1, 0), inflight + multiset{obj})
      requires obj !in c.refs && obj !in c.readers && obj !in c.writers && counts == NewPipe(c, obj, 2, 1, 1)
      modifies this`tables, this`counts
      ensures Valid()
      ensures !ok ==> counts == c && SameHolders(ts, tables)
      ensures ok <==> CanEnter(old(tables)[p], INVALID, grow)
      ensures ok ==> counts == NewPipe(c, obj, 2, 1, 1)
      ensures ok ==> p < |tables| && r < |tables[p]| && w < |tables[p]| && r != w
                     && tables[p][r] == Used(PipeRead, obj, RIGHT_ALL)
                     && tables[p][w] == Used(PipeWrite, obj, RIGHT_ALL)
      ensures forall o: nat :: o != obj || !ok ==> Attenuates(ts, tables, o)
    {
      hide Balanced, Attenuates, Placed, SameHolders, Destroy, NewPipe;
      ghost var mid := tables;
      PlacedEntry(ts, mid, p, r, Used(PipeRead, obj, RIGHT_ALL));
      ok, w := HandleAlloc(p, PipeWrite, obj, grow);
      if !ok {
        GivenUpBalanced(mid, c, inflight, p, r, obj);
        ClosedTwice(c, obj);
        tables := tables[p := tables[p][r := Empty]];
        PlacedThenCleared(ts, mid, tables, p, r, Used(PipeRead, obj, RIGHT_ALL));
        counts := Destroy(counts, PipeRead, obj);
        counts := Destroy(counts, PipeRead, obj);
        return;
      }
      PlacedEntry(mid, tables, p, w, Used(PipeWrite, obj, RIGHT_ALL));
      BothEndsBalanced(mid, tables, c, inflight, p, w, obj);
      forall o: nat | o != obj
        ensures Attenuates(ts, tables, o)
      {
        OtherAttenuates(ts, mid, p, r, Used(PipeRead, obj, RIGHT_ALL), o);
        OtherAttenuates(mid, tables, p, w, Used(PipeWrite, obj, RIGHT_ALL), o);
        AttenuatesTwice(ts, mid, tables, o);
      }
    }

    /** A new process gets an empty table, if there is memory for it. */
    method TableCreate(grow: bool) returns (ok: bool, p: nat)
      requires Valid()
      modifies this`tables
      ensures Valid() && ok == grow && p == |old(tables)|
      ensures tables == if ok then old(tables) + [seq(TABLE_SIZE, _ => Empty)] else old(tables)
      ensures forall o: nat :: Attenuates(old(tables), tables, o)
    {
      hide Balanced, Attenuates;
      p, ok := |tables|, grow;
      NothingAttenuates(tables);
      if ok {
        NewTableBalanced(tables, counts, inflight, seq(TABLE_SIZE, _ => Empty));
        tables := tables + [seq(TABLE_SIZE, _ => Empty)];
        forall o: nat
          ensures Attenuates(old(tables), tables, o)
        {
          NewTableAttenuates(old(tables), seq(TABLE_SIZE, _ => Empty), o);
        }
      }
    }

    /** One operation of any kind; `born` is the object it created, if any. */
    method Perform(op: Op) returns (ghost born: set<nat>, outside: bool)
      requires Valid() && (op.DuplicateOp? ==> op.hint < UINT32)
      modifies this
      ensures outside <==> op.DuplicateOp? && old(MayDuplicate(op.p, op.h)) && op.named
                           && Overruns(|old(tables)[op.p]|, op.hint, op.grow)
      ensures !outside ==> Valid() && forall o: nat :: o !in born ==> Attenuates(old(tables), tables, o)
      ensures !outside ==> Does(op, old(counts).refs.Keys, old(tables), tables)
      ensures !outside ==> inflight == InFlight(op, old(tables), old(inflight))
      ensures born <= Creates(op) && forall o <- born :: o !in old(counts).refs
    {
      hide Valid, Attenuates, Does, Overruns, InFlight, MayDuplicate;
      born, outside := {}, false;
      if op.TableOp? || op.ObjectOp? || op.PipeOp? {
        born := CreateSome(op);
      } else if op.DuplicateOp? || op.GrantOp? || op.MessageOp? {
        outside := PassOn(op);
      } else {
        Release(op);
      }
    }

    method CreateSome(op: Op) returns (ghost born: set<nat>)
      requires Valid() && (op.TableOp? || op.ObjectOp? || op.PipeOp?)
      modifies this
      ensures Valid() && forall o: nat :: o !in born ==> Attenuates(old(tables), tables, o)
      ensures Does(op, old(counts).refs.Keys, old(tables), tables)
      ensures inflight == InFlight(op, old(tables), old(inflight))
      ensures born <= Creates(op) && forall o <- born :: o !in old(counts).refs
    {
      hide Balanced, Capped, Attenuates, Placed, NewPipe, SameHolders, CanEnter, Entered;
      NothingAttenuates(tables);
      NothingMoves(tables);
      born := {};
      match op {
        case TableOp(grow) =>
          var ok, p := TableCreate(grow);
        case ObjectOp(p, obj, grow) =>
          if p < |tables| && obj !in counts.refs {
            var ok, h := ObjectCreate(p, obj, grow);
            born := if ok then {obj} else {};
          }
        case PipeOp(p, obj, grow, grow') =>
          if p < |tables| && obj !in counts.refs {
            var ok, r, w := PipeCreate(p, obj, grow, grow');
            born := if ok then {obj} else {};
          }
      }
    }

    method PassOn(op: Op) returns (outside: bool)
      requires Valid() && (op.DuplicateOp? || op.GrantOp? || op.MessageOp?) && (op.DuplicateOp? ==> op.hint < UINT32)
      modifies this
      ensures outside <==> op.DuplicateOp? && old(MayDuplicate(op.p, op.h)) && op.named
                           && Overruns(|old(tables)[op.p]|, op.hint, op.grow)
      ensures !outside ==> Valid() && forall o: nat :: Attenuates(old(tables), tables, o)
      ensures !outside ==> Does(op, old(counts).refs.Keys, old(tables), tables)
      ensures !outside ==> inflight == InFlight(op, old(tables), old(inflight))
    {
      hide Balanced, Capped, Attenuates, Placed, Arrived, Overruns, CanEnter, Granted;
      NothingAttenuates(tables);
      outside := false;
      match op {
        case DuplicateOp(p, h, hint, named, grow) =>
          var ok, h';
          ok, h', outside := HandleDuplicate(p, h, hint, named, grow);
        case GrantOp(capable, src, h, dst, mask, named, grow) =>
          var ok, h' := Grant(capable, src, h, dst, mask, named, grow);
        case MessageOp(src, hs, dst, grow) =>
          if |grow| == |hs| {
            var out, mids := TransferAll(src, hs, dst, grow);
          }
      }
    }

    method Release(op: Op)
      requires Valid() && (op.CloseOp? || op.AcquireOp? || op.PutOp? || op.ExitOp?)
      modifies this
      ensures Valid() && forall o: nat :: Attenuates(old(tables), tables, o)
      ensures Does(op, old(counts).refs.Keys, old(tables), tables)
      ensures inflight == InFlight(op, old(tables), old(inflight))
    {
      hide Valid, Attenuates, Get, Put;
      NothingAttenuates(tables);
      match op {
        case CloseOp(p, h) =>
          HandleFree(p, h);
        case AcquireOp(p, h, expected) =>
          var ok, e := HandleAcquire(p, h, expected);
        case PutOp(obj) =>
          if obj in inflight {
            ObjectPut(obj);
          }
        case ExitOp(p) =>
          if p < |tables| {
            TableDestroy(p);
          }
      }
    }

    /** Any sequence of operations, and the tables and live objects in between. Counts stay balanced
        throughout, no right appears on an object other than those created on the way, and without a
        transferable handle no new process comes to hold one. This ends only where a duplicate asks for
        a slot outside its table. */
    method RunAll(ops: seq<Op>) returns (ghost born: set<nat>, outside: bool, ghost states: seq<(Tables, set<nat>)>)
      requires Valid() && forall i :: 0 <= i < |ops| && ops[i].DuplicateOp? ==> ops[i].hint < UINT32
      modifies this
      ensures !outside ==> Valid() && forall o: nat :: o !in born ==> Attenuates(old(tables), tables, o)
      ensures !outside ==> Performed(ops, states) && states[0] == (old(tables), old(counts).refs.Keys)
                           && states[|ops|] == (tables, counts.refs.Keys)
      ensures forall o <- born :: exists i :: 0 <= i < |ops| && o in Creates(ops[i])
      ensures (forall i :: 0 <= i < |ops| && ops[i].DuplicateOp? ==> ModestHint(ops[i].hint)) ==> !outside
    {
      hide Valid, Attenuates, Creates, Overruns, ModestHint, Does;
      NothingAttenuates(tables);
      born, outside, states := {}, false, [(tables, counts.refs.Keys)];
      for k := 0 to |ops|
        invariant Valid() && !outside && forall o: nat :: o !in born ==> Attenuates(old(tables), tables, o)
        invariant Performed(ops[..k], states) && states[0] == (old(tables), old(counts).refs.Keys)
        invariant states[k] == (tables, counts.refs.Keys)
        invariant forall o <- born :: exists i :: 0 <= i < k && o in Creates(ops[i])
      {
        ghost var before, added := tables, {};
        NoOverrun();
        added, outside := Perform(ops[k]);
        if outside {
          return;
        }
        forall o: nat | o !in born + added
          ensures Attenuates(old(tables), tables, o)
        {
          AttenuatesTwice(old(tables), before, tables, o);
        }
        born := born + added;
        states := states + [(tables, counts.refs.Keys)];
        assert ops[..k + 1] == ops[..k] + [ops[k]];
      }
      assert ops[..|ops|] == ops;
    }

    /** A modest hint is answered inside the table. */
    lemma NoOverrun()
      requires Valid()
      ensures forall p: nat, hint: nat, grow: bool ::
                HasTable(p) && hint < UINT32 && ModestHint(hint) ==> !Overruns(|tables[p]|, hint, grow)
    {
      forall p: nat, hint: nat, grow: bool | HasTable(p) && hint < UINT32 && ModestHint(hint)
        ensures !Overruns(|tables[p]|, hint, grow)
      {
        OverrunsIff(|tables[p]|, hint, grow);
      }
    }
  }

  lemma NewTableAttenuates(ts: Tables, t: seq<Entry>, o: nat)
    requires forall j: nat :: j < |t| ==> t[j] == Empty
    ensures Attenuates(ts, ts + [t], o)
  {
    FewerAttenuates(ts, ts + [t], o);
  }

  lemma EmptyTableSlots(ts: Tables, p: nat, o: nat, kinds: set<Kind>)
    requires p < |ts| && forall j: nat :: j < |ts[p]| ==> ts[p][j] == Empty
    ensures Slots(ts[p := []], o, kinds) == Slots(ts, o, kinds)
  {
  }

  lemma EmptyTableBalanced(ts: Tables, c: Counts, inflight: multiset<nat>, p: nat)
    requires Balanced(ts, c, inflight) && p < |ts| && forall j: nat :: j < |ts[p]| ==> ts[p][j] == Empty
    ensures Balanced(ts[p := []], c, inflight)
  {
    var ts' := ts[p := []];
    forall o: nat
      ensures ObjectOk(ts', c, inflight, o)
    {
      assert ObjectOk(ts, c, inflight, o);
      EmptyTableSlots(ts, p, o, ANY);
      EmptyTableSlots(ts, p, o, {PipeRead});
      EmptyTableSlots(ts, p, o, {PipeWrite});
    }
  }

  lemma EmptyTableAttenuates(ts: Tables, p: nat, o: nat)
    requires p < |ts|
    ensures Attenuates(ts, ts[p := []], o)
  {
    FewerAttenuates(ts, ts[p := []], o);
  }

  lemma NewTableSlots(ts: Tables, t: seq<Entry>, o: nat, kinds: set<Kind>)
    requires forall j: nat :: j < |t| ==> t[j] == Empty
    ensures Slots(ts + [t], o, kinds) == Slots(ts, o, kinds)
  {
  }

  lemma NewTableBalanced(ts: Tables, c: Counts, inflight: multiset<nat>, t: seq<Entry>)
    requires Balanced(ts, c, inflight) && forall j: nat :: j < |t| ==> t[j] == Empty
    ensures Balanced(ts + [t], c, inflight)
  {
    var ts' := ts + [t];
    forall o: nat
      ensures ObjectOk(ts', c, inflight, o)
    {
      assert ObjectOk(ts, c, inflight, o);
      NewTableSlots(ts, t, o, ANY);
      NewTableSlots(ts, t, o, {PipeRead});
      NewTableSlots(ts, t, o, {PipeWrite});
    }
  }

  function NewPipe(c: Counts, o: nat, refs: nat, readers: nat, writers: nat): Counts {
    Counts(c.refs[o := refs], c.readers[o := readers], c.writers[o := writers])
  }

  /** A fresh object is held by its creator only. */
  lemma FreshBalanced(ts: Tables, c: Counts, inflight: multiset<nat>, obj: nat)
    requires Balanced(ts, c, inflight) && obj !in c.refs
    ensures obj !in c.readers && obj !in c.writers
    ensures Balanced(ts, c.(refs := c.refs[obj := 1]), inflight + multiset{obj})
    ensures Balanced(ts, NewPipe(c, obj, 1, 0, 0), inflight + multiset{obj})
  {
    hide Slots;
    assert ObjectOk(ts, c, inflight, obj);
    NoEnds(ts, obj);
    var c1, c2, more := c.(refs := c.refs[obj := 1]), NewPipe(c, obj, 1, 0, 0), inflight + multiset{obj};
    forall o: nat
      ensures ObjectOk(ts, c1, more, o) && ObjectOk(ts, c2, more, o)
    {
      assert ObjectOk(ts, c, inflight, o);
    }
    FreedTyped(ts, c, c1, obj);
    FreedTyped(ts, c, c2, obj);
  }

  lemma NoEnds(ts: Tables, o: nat)
    requires Slots(ts, o, ANY) == {}
    ensures Slots(ts, o, {PipeRead}) == {} && Slots(ts, o, {PipeWrite}) == {}
  {
    NotHeld(ts, o);
  }

  lemma NewObjectBalanced(ts: Tables, ts': Tables, c: Counts, inflight: multiset<nat>, p: nat, h: nat, obj: nat)
    requires Balanced(ts, c, inflight) && obj !in c.refs && Placed(ts, ts', p, h, Used(Other, obj, RIGHT_ALL))
    ensures Balanced(ts', c.(refs := c.refs[obj := 1]), inflight)
  {
    hide Balanced, Placed;
    var c1 := c.(refs := c.refs[obj := 1]);
    FreshBalanced(ts, c, inflight, obj);
    OpenBalanced(ts, ts', c1, inflight + multiset{obj}, p, h, Used(Other, obj, RIGHT_ALL));
    PutBalanced(ts', Open(c1, Other, obj), inflight + multiset{obj}, obj);
    assert Put(Open(c1, Other, obj), obj).refs == c1.refs;
    assert inflight + multiset{obj} - multiset{obj} == inflight;
  }

  /** A pipe whose read end has a handle and whose creator still holds it. */
  lemma ReadEndBalanced(ts: Tables, ts': Tables, c: Counts, inflight: multiset<nat>, p: nat, r: nat, obj: nat)
    requires Balanced(ts, c, inflight) && obj !in c.refs && Placed(ts, ts', p, r, Used(PipeRead, obj, RIGHT_ALL))
    ensures Balanced(ts', NewPipe(c, obj, 2, 1, 0), inflight + multiset{obj})
  {
    hide Balanced, Placed;
    var c1 := NewPipe(c, obj, 1, 0, 0);
    FreshBalanced(ts, c, inflight, obj);
    OpenBalanced(ts, ts', c1, inflight + multiset{obj}, p, r, Used(PipeRead, obj, RIGHT_ALL));
    SameCounts(Open(c1, PipeRead, obj), NewPipe(c, obj, 2, 1, 0));
  }

  lemma BothEndsBalanced(ts: Tables, ts': Tables, c: Counts, inflight: multiset<nat>, p: nat, w: nat, obj: nat)
    requires Balanced(ts, NewPipe(c, obj, 2, 1, 0), inflight + multiset{obj})
    requires Placed(ts, ts', p, w, Used(PipeWrite, obj, RIGHT_ALL))
    ensures Balanced(ts', NewPipe(c, obj, 2, 1, 1), inflight)
  {
    hide Balanced, Placed;
    var c2 := NewPipe(c, obj, 2, 1, 0);
    OpenBalanced(ts, ts', c2, inflight + multiset{obj}, p, w, Used(PipeWrite, obj, RIGHT_ALL));
    SameCounts(Open(c2, PipeWrite, obj), NewPipe(c, obj, 3, 1, 1));
    PutBalanced(ts', NewPipe(c, obj, 3, 1, 1), inflight + multiset{obj}, obj);
    SameCounts(Put(NewPipe(c, obj, 3, 1, 1), obj), NewPipe(c, obj, 2, 1, 1));
    assert inflight + multiset{obj} - multiset{obj} == inflight;
  }

  lemma NewPipeGone(c: Counts, obj: nat)
    requires obj !in c.refs && obj !in c.readers && obj !in c.writers
    ensures var d := NewPipe(c, obj, 2, 1, 1); Counts(d.refs - {obj}, d.readers - {obj}, d.writers - {obj}) == c
  {
    var d := NewPipe(c, obj, 2, 1, 1);
    SameCounts(Counts(d.refs - {obj}, d.readers - {obj}, d.writers - {obj}), c);
  }

  /** Closing the read end twice leaves no trace of the pipe. */
  lemma ClosedTwice(c: Counts, obj: nat)
    requires obj !in c.refs && obj !in c.readers && obj !in c.writers
    ensures var d := NewPipe(c, obj, 2, 1, 1);
            obj in d.refs && d.refs[obj] > 0 && obj in d.readers && obj in d.writers
            && Destroy(d, PipeRead, obj) == NewPipe(c, obj, 1, 0, 1)
    ensures var d := NewPipe(c, obj, 1, 0, 1);
            obj in d.refs && d.refs[obj] > 0 && obj in d.readers && obj in d.writers
            && Destroy(d, PipeRead, obj) == c
  {
    SameCounts(Destroy(NewPipe(c, obj, 2, 1, 1), PipeRead, obj), NewPipe(c, obj, 1, 0, 1));
    SameCounts(Destroy(NewPipe(c, obj, 1, 0, 1), PipeRead, obj), c);
  }

  /** The counts without a write end: closing the read end, then dropping the creator's reference. */
  lemma ClosedAndDropped(c: Counts, obj: nat)
    requires obj !in c.refs && obj !in c.readers && obj !in c.writers
    ensures Destroy(NewPipe(c, obj, 2, 1, 0), PipeRead, obj) == NewPipe(c, obj, 1, 0, 0)
    ensures Put(NewPipe(c, obj, 1, 0, 0), obj) == c
  {
    SameCounts(Destroy(NewPipe(c, obj, 2, 1, 0), PipeRead, obj), NewPipe(c, obj, 1, 0, 0));
    SameCounts(Put(NewPipe(c, obj, 1, 0, 0), obj), c);
  }

  /** Giving the pipe up when only the read end got its handle. */
  lemma GivenUpBalanced(ts: Tables, c: Counts, inflight: multiset<nat>, p: nat, r: nat, obj: nat)
    requires Balanced(ts, NewPipe(c, obj, 2, 1, 0), inflight + multiset{obj})
    requires obj !in c.refs && obj !in c.readers && obj !in c.writers
    requires p < |ts| && r < |ts[p]| && ts[p][r] == Used(PipeRead, obj, RIGHT_ALL)
    ensures Balanced(ts[p := ts[p][r := Empty]], c, inflight)
  {
    hide Balanced, Destroy, Put;
    ClosedAndDropped(c, obj);
    DestroyBalanced(ts, NewPipe(c, obj, 2, 1, 0), inflight + multiset{obj}, p, r);
    PutBalanced(ts[p := ts[p][r := Empty]], NewPipe(c, obj, 1, 0, 0), inflight + multiset{obj}, obj);
    assert inflight + multiset{obj} - multiset{obj} == inflight;
  }

  lemma SameCounts(c: Counts, d: Counts)
    requires c.refs == d.refs && c.readers == d.readers && c.writers == d.writers
    ensures c == d
  {
  }

  lemma PlacedEntry(ts: Tables, ts': Tables, p: nat, h: nat, e: Entry)
    requires Placed(ts, ts', p, h, e)
    ensures p < |ts| == |ts'| && h < |ts'[p]| && ts'[p][h] == e
    ensures forall i: nat :: i < |ts[p]| && ts[p][i].Used? ==> i < |ts'[p]| && ts'[p][i] == ts[p][i] && i != h
  {
  }

  ghost predicate SameHolders(ts: Tables, ts': Tables) {
    forall q: nat, i: nat, o: nat :: Holds(ts', q, i, o) <==> Holds(ts, q, i, o)
  }

  lemma PlacedThenCleared(ts: Tables, ts': Tables, ts'': Tables, p: nat, h: nat, e: Entry)
    requires Placed(ts, ts', p, h, e) && ts'' == ts'[p := ts'[p][h := Empty]]
    ensures SameHolders(ts, ts'')
    ensures forall o: nat :: Attenuates(ts, ts'', o)
  {
    hide Attenuates;
    forall o: nat
      ensures Attenuates(ts, ts'', o)
    {
      FewerAttenuates(ts, ts'', o);
    }
  }

  lemma GetPut(c: Counts, o: nat)
    requires o in c.refs && c.refs[o] > 0
    ensures Get(c, o).refs[o] > 1 && Put(Get(c, o), o) == c
  {
    assert c.refs[o := c.refs[o] + 1][o := c.refs[o]] == c.refs;
  }

  lemma GetKeepsEnds(c: Counts, o: nat)
    requires o in c.refs
    ensures o in Get(c, o).refs && Get(c, o).readers == c.readers && Get(c, o).writers == c.writers
  {
  }

  lemma OpenPut(c: Counts, k: Kind, o: nat)
    requires o in c.refs && c.refs[o] > 0 && (k != Other ==> o in c.readers && o in c.writers)
    ensures var c' := Open(Get(c, o), k, o); o in c'.refs && c'.refs[o] > 1 && Put(c', o) == Open(c, k, o)
  {
    var c' := Open(Get(c, o), k, o);
    assert c'.refs == c.refs[o := c.refs[o] + 2];
    assert c'.refs[o := c.refs[o] + 1] == c.refs[o := c.refs[o] + 1];
  }

  lemma PlacedAgain(ts: Tables, ts': Tables, p: nat, h: nat, e: Entry, rights: set<Right>)
    requires Placed(ts, ts', p, h, e) && e.Used?
    ensures p < |ts'| && h < |ts'[p]| && ts'[p][h] == e
    ensures Placed(ts, ts'[p := ts'[p][h := e.(rights := rights)]], p, h, e.(rights := rights))
  {
  }

  /** Changing the rights of a handle changes no count. */
  lemma RightsBalanced(ts: Tables, c: Counts, inflight: multiset<nat>, p: nat, h: nat, rights: set<Right>)
    requires Balanced(ts, c, inflight) && p < |ts| && h < |ts[p]| && ts[p][h].Used?
    ensures Balanced(ts[p := ts[p][h := ts[p][h].(rights := rights)]], c, inflight)
  {
    var ts' := ts[p := ts[p][h := ts[p][h].(rights := rights)]];
    forall o: nat
      ensures ObjectOk(ts', c, inflight, o)
    {
      assert ObjectOk(ts, c, inflight, o);
      RightsSlots(ts, p, h, rights, o, ANY);
      RightsSlots(ts, p, h, rights, o, {PipeRead});
      RightsSlots(ts, p, h, rights, o, {PipeWrite});
    }
  }

  lemma RightsSlots(ts: Tables, p: nat, h: nat, rights: set<Right>, o: nat, kinds: set<Kind>)
    requires p < |ts| && h < |ts[p]| && ts[p][h].Used?
    ensures Slots(ts[p := ts[p][h := ts[p][h].(rights := rights)]], o, kinds) == Slots(ts, o, kinds)
  {
  }

  lemma NothingMoves(ts: Tables)
    ensures SameHolders(ts, ts)
  {
  }

  lemma NothingAttenuates(ts: Tables)
    ensures forall o: nat :: Attenuates(ts, ts, o)
  {
  }
}
