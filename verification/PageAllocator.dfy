/**
  The physical page allocator: a bitmap with one bit per page, first-fit search, and who owns which
  page.

  Bit `p % 32` of word `p / 32` of the bitmap is entry `p` of `bits`; it is set when page `p` is
  not free.
  */
module PageAllocator {
  import opened Bytes

  const PAGE_SIZE := 4096
  const NULL := 0

  // ---------------------------------------------------------- counting free pages

  function FreeCount(bits: seq<bool>): nat {
    if bits == [] then 0 else FreeCount(bits[..|bits| - 1]) + if bits[|bits| - 1] then 0 else 1
  }

  lemma {:induction false} FreeCountUpdate(bits: seq<bool>, p: nat, v: bool)
    requires p < |bits|
    ensures FreeCount(bits[p := v]) == FreeCount(bits) + (if bits[p] then 1 else 0) - if v then 1 else 0
  {
    var n := |bits| - 1;
    if p == n {
      assert bits[p := v][..n] == bits[..n];
    } else {
      assert bits[p := v][..n] == bits[..n][p := v];
      FreeCountUpdate(bits[..n], p, v);
    }
  }

  /** `bits` with pages `from` to `to` set to `v`. */
  ghost function Marked(bits: seq<bool>, from: nat, until: nat, v: bool): (r: seq<bool>)
    requires from <= until <= |bits|
    ensures |r| == |bits|
    ensures forall p :: 0 <= p < |bits| ==> r[p] == if from <= p < until then v else bits[p]
  {
    seq(|bits|, p requires 0 <= p < |bits| => if from <= p < until then v else bits[p])
  }

  lemma {:induction false} FreeCountMarked(bits: seq<bool>, from: nat, until: nat, v: bool)
    requires from <= until <= |bits| && forall p :: from <= p < until ==> bits[p] != v
    ensures FreeCount(Marked(bits, from, until, v)) == FreeCount(bits) + (if v then from - until else until - from)
    decreases until
  {
    if from == until {
      assert Marked(bits, from, until, v) == bits;
    } else {
      FreeCountMarked(bits, from, until - 1, v);
      var m := Marked(bits, from, until - 1, v);
      FreeCountUpdate(m, until - 1, v);
      assert m[until - 1 := v] == Marked(bits, from, until, v);
    }
  }

  // ------------------------------------------------------------- clearing a range

  function RoundUp32(p: nat): nat {
    (p + 31) / 32 * 32
  }

  /** The caller-visible condition under which `BitmapClearRange` clears what it was asked to. */
  predicate ReachesBoundary(start: nat, end: nat) {
    start % 32 == 0 || RoundUp32(start) <= end
  }

  /** Where clearing really starts: at the beginning of the word when the range lies strictly inside
      one word. */
  function ClearedFrom(start: nat, end: nat): (from: nat)
    ensures from <= start
    ensures from == start <==> ReachesBoundary(start, end)
  {
    if ReachesBoundary(start, end) then start else start / 32 * 32
  }

  /** Clears single bits up to a word boundary, then whole words, then single bits. */
  method BitmapClearRange(bits: seq<bool>, start: nat, end: nat) returns (r: seq<bool>)
    ensures start >= end || end > |bits| ==> r == bits
    ensures start < end <= |bits| ==> r == Marked(bits, ClearedFrom(start, end), end, false)
  {
    r := bits;
    if start >= end || end > |bits| {
      return;
    }
    var i := start;
    assert r == Marked(bits, start, start, false);
    while i < end && i % 32 != 0
      invariant start <= i <= end && i <= RoundUp32(start)
      invariant r == Marked(bits, start, i, false)
    {
      r := r[i := false];
      i := i + 1;
    }
    var wordStart, wordEnd := i / 32, end / 32;
    if wordEnd > wordStart {
      r := ClearBits(r, wordStart * 32, wordEnd * 32);
    }
    r := ClearBits(r, wordEnd * 32, end);
    ClearedInParts(bits, start, i, end);
  }

  /** Bits up to `i`, whole words up to the last boundary, then the rest of the last word. */
  lemma ClearedInParts(bits: seq<bool>, start: nat, i: nat, end: nat)
    requires start <= i <= end <= |bits| && start < end && i <= RoundUp32(start) && (i == end || i % 32 == 0)
    ensures
      var bitwise := Marked(bits, start, i, false);
      var words := if end / 32 > i / 32 then Marked(bitwise, i / 32 * 32, end / 32 * 32, false) else bitwise;
      Marked(words, end / 32 * 32, end, false) == Marked(bits, ClearedFrom(start, end), end, false)
  {
    var last := end / 32 * 32;
    if i % 32 == 0 {
      assert ClearedFrom(start, end) == start && i <= last;
    } else {
      assert ClearedFrom(start, end) == last <= start && i == end;
    }
  }

  method ClearBits(bits: seq<bool>, from: nat, until: nat) returns (r: seq<bool>)
    requires from <= until <= |bits|
    ensures r == Marked(bits, from, until, false)
  {
    r := bits;
    for p := from to until
      invariant r == Marked(bits, from, p, false)
    {
      r := r[p := false];
    }
  }

  /** Clearing is exact on every bitmap iff the range starts on a word boundary or reaches the next
      one; otherwise an all-allocated bitmap loses pages before the range. */
  lemma ClearRangeIsExact(n: nat, start: nat, end: nat)
    requires start < end <= n
    ensures ReachesBoundary(start, end) <==>
            forall bits: seq<bool> :: |bits| == n ==>
                Marked(bits, ClearedFrom(start, end), end, false) == Marked(bits, start, end, false)
  {
    if !ReachesBoundary(start, end) {
      var full := seq(n, _ => true);
      var from := ClearedFrom(start, end);
      assert !Marked(full, from, end, false)[from] && Marked(full, start, end, false)[from];
    }
  }

  /** Pages 3 and 4 are asked for; pages 0, 1 and 2 are freed as well. */
  lemma ClearRangeCanOverreach()
    ensures Marked(seq(8, _ => true), ClearedFrom(3, 5), 5, false)[..4] == [false, false, false, false]
    ensures Marked(seq(8, _ => true), 3, 5, false)[..4] == [true, true, true, false]
  {
  }

  // ------------------------------------------------------------------ free runs

  ghost predicate FreeRun(bits: seq<bool>, first: nat, count: nat, from: nat, until: nat) {
    from <= first && first + count <= until <= |bits| &&
    forall p :: first <= p < first + count ==> !bits[p]
  }

  ghost predicate LowestFreeRun(bits: seq<bool>, first: nat, count: nat, from: nat, until: nat) {
    FreeRun(bits, first, count, from, until) &&
    forall p: nat :: FreeRun(bits, p, count, from, until) ==> first <= p
  }

  ghost predicate NoFreeRun(bits: seq<bool>, count: nat, from: nat, until: nat) {
    forall p: nat :: !FreeRun(bits, p, count, from, until)
  }

  // ------------------------------------------------------------------ ownership

  datatype Owner = Free | Reserved | Block(first: nat)

  /** Every page is free, reserved, or part of exactly one live block; `blocks` gives the length of
      the block at each first page. */
  ghost predicate Owned(bits: seq<bool>, owner: seq<Owner>, blocks: map<nat, nat>) {
    |owner| == |bits| &&
    (forall p :: 0 <= p < |bits| ==> (bits[p] <==> owner[p] != Free)) &&
    (forall s <- blocks :: blocks[s] > 0 && s + blocks[s] <= |bits|) &&
    (forall p, s :: 0 <= p < |bits| && s in blocks && s <= p < s + blocks[s] ==> owner[p] == Block(s)) &&
    (forall p :: 0 <= p < |bits| && owner[p].Block? ==>
        var s := owner[p].first; s in blocks && s <= p < s + blocks[s])
  }

  /** `owner` with the pages of a block assigned to `o`. */
  ghost function Assigned(owner: seq<Owner>, first: nat, count: nat, o: Owner): (r: seq<Owner>)
    requires first + count <= |owner|
    ensures |r| == |owner|
    ensures forall p :: 0 <= p < |owner| ==> r[p] == if first <= p < first + count then o else owner[p]
  {
    seq(|owner|, p requires 0 <= p < |owner| => if first <= p < first + count then o else owner[p])
  }

  lemma ClaimKeepsOwned(bits: seq<bool>, owner: seq<Owner>, blocks: map<nat, nat>, first: nat, count: nat)
    requires Owned(bits, owner, blocks)
    requires count > 0 && FreeRun(bits, first, count, 0, |bits|)
    ensures first !in blocks && |owner| == |bits|
    ensures Owned(Marked(bits, first, first + count, true),
                  Assigned(owner, first, count, Block(first)), blocks[first := count])
  {
    assert owner[first] == Free && first !in blocks;
    var bits', owner' := Marked(bits, first, first + count, true), Assigned(owner, first, count, Block(first));
    var blocks' := blocks[first := count];
    assert forall p :: 0 <= p < |bits| ==> (bits'[p] <==> owner'[p] != Free);
    forall p, s | 0 <= p < |bits| && s in blocks' && s <= p < s + blocks'[s]
      ensures owner'[p] == Block(s)
    {
      if s != first {
        assert owner[p] == Block(s) && bits[p];
      }
    }
    forall p | 0 <= p < |bits| && owner'[p].Block?
      ensures owner'[p].first in blocks' && owner'[p].first <= p < owner'[p].first + blocks'[owner'[p].first]
    {
      if !(first <= p < first + count) {
        assert owner[p] == owner'[p] && owner[p].first in blocks;
      }
    }
  }

  ghost function Cleared(bits: seq<bool>, hits: set<nat>): (r: seq<bool>)
    ensures |r| == |bits|
    ensures forall p :: 0 <= p < |bits| ==> (r[p] <==> bits[p] && p !in hits)
  {
    seq(|bits|, p requires 0 <= p < |bits| => bits[p] && p !in hits)
  }

  ghost function Freed(owner: seq<Owner>, hits: set<nat>): (r: seq<Owner>)
    ensures |r| == |owner|
    ensures forall p :: 0 <= p < |owner| ==> r[p] == if p in hits then Free else owner[p]
  {
    seq(|owner|, p requires 0 <= p < |owner| => if p in hits then Free else owner[p])
  }

  ghost function Left(blocks: map<nat, nat>, hits: set<nat>): map<nat, nat> {
    map s | s in blocks && s !in hits :: blocks[s]
  }

  ghost predicate BlockHit(blocks: map<nat, nat>, s: nat, hits: set<nat>) {
    s in blocks && forall q: nat :: s <= q < s + blocks[s] ==> q in hits
  }

  /** Every allocated page among `hits` lies in a live block all of whose pages are among them. */
  ghost predicate WholeBlocks(bits: seq<bool>, owner: seq<Owner>, blocks: map<nat, nat>, hits: set<nat>) {
    forall p :: 0 <= p < |bits| && p < |owner| && bits[p] && p in hits ==>
                  owner[p].Block? && BlockHit(blocks, owner[p].first, hits)
  }

  lemma ReleaseKeepsOwned(bits: seq<bool>, owner: seq<Owner>, blocks: map<nat, nat>, hits: set<nat>)
    requires Owned(bits, owner, blocks) && WholeBlocks(bits, owner, blocks, hits)
    ensures Owned(Cleared(bits, hits), Freed(owner, hits), Left(blocks, hits))
  {
    var bits', owner', blocks' := Cleared(bits, hits), Freed(owner, hits), Left(blocks, hits);
    forall p, s | 0 <= p < |bits| && s in blocks' && s <= p < s + blocks'[s]
      ensures owner'[p] == Block(s)
    {
      assert owner[p] == Block(s);
      assert BlockHit(blocks, s, hits) ==> s in hits;
    }
    forall p | 0 <= p < |bits| && owner'[p].Block?
      ensures owner'[p].first in blocks' && owner'[p].first <= p < owner'[p].first + blocks'[owner'[p].first]
    {
      var s := owner[p].first;
      assert owner[p] == owner'[p] && s in blocks;
      assert owner[s] == Block(s);
    }
  }

  /** Some ownership without new blocks and with the same reserved pages fits the bitmap. */
  ghost predicate Explained(bits: seq<bool>, owner: seq<Owner>, blocks: map<nat, nat>) {
    exists owner': seq<Owner>, blocks': map<nat, nat> :: Explains(bits, owner, blocks, owner', blocks')
  }

  ghost predicate Explains(bits: seq<bool>, owner: seq<Owner>, blocks: map<nat, nat>, owner': seq<Owner>,
                           blocks': map<nat, nat>) {
    && Owned(bits, owner', blocks') && |owner'| == |owner|
    && (forall s <- blocks' :: s in blocks && blocks'[s] == blocks[s])
    && (forall p :: 0 <= p < |owner| ==> (owner'[p] == Reserved <==> owner[p] == Reserved))
  }

  /** After pages were freed some ownership fits iff the allocated ones among them make up whole blocks. */
  lemma ReleaseIff(bits: seq<bool>, owner: seq<Owner>, blocks: map<nat, nat>, hits: set<nat>)
    requires Owned(bits, owner, blocks)
    ensures Explained(Cleared(bits, hits), owner, blocks) <==> WholeBlocks(bits, owner, blocks, hits)
  {
    hide Owned, WholeBlocks;
    if WholeBlocks(bits, owner, blocks, hits) {
      WholeIsExplained(bits, owner, blocks, hits);
    }
    if Explained(Cleared(bits, hits), owner, blocks) {
      var owner', blocks' :| Explains(Cleared(bits, hits), owner, blocks, owner', blocks');
      ExplainedIsWhole(bits, owner, blocks, hits, owner', blocks');
    }
  }

  lemma WholeIsExplained(bits: seq<bool>, owner: seq<Owner>, blocks: map<nat, nat>, hits: set<nat>)
    requires Owned(bits, owner, blocks) && WholeBlocks(bits, owner, blocks, hits)
    ensures Explained(Cleared(bits, hits), owner, blocks)
  {
    ReleaseKeepsOwned(bits, owner, blocks, hits);
    assert Explains(Cleared(bits, hits), owner, blocks, Freed(owner, hits), Left(blocks, hits));
  }

  lemma ExplainedIsWhole(bits: seq<bool>, owner: seq<Owner>, blocks: map<nat, nat>, hits: set<nat>,
                         owner': seq<Owner>, blocks': map<nat, nat>)
    requires Owned(bits, owner, blocks) && Explains(Cleared(bits, hits), owner, blocks, owner', blocks')
    ensures WholeBlocks(bits, owner, blocks, hits)
  {
    forall p | 0 <= p < |bits| && bits[p] && p in hits
      ensures owner[p].Block? && BlockHit(blocks, owner[p].first, hits)
    {
      assert !Cleared(bits, hits)[p] && owner'[p] == Free;
      var s := owner[p].first;
      assert s !in blocks';
      forall q: nat | s <= q < s + blocks[s] ensures q in hits {
        assert owner[q] == Block(s);
      }
    }
  }

  lemma OwnedIsExplained(bits: seq<bool>, owner: seq<Owner>, blocks: map<nat, nat>)
    ensures Owned(bits, owner, blocks) ==> Explained(bits, owner, blocks)
  {
    assert Owned(bits, owner, blocks) ==> Explains(bits, owner, blocks, owner, blocks);
  }

  lemma NothingReleased(bits: seq<bool>, owner: seq<Owner>, blocks: map<nat, nat>)
    ensures Cleared(bits, {}) == bits && Freed(owner, {}) == owner && Left(blocks, {}) == blocks
    ensures WholeBlocks(bits, owner, blocks, {})
  {
  }

  lemma BlockIsWhole(bits: seq<bool>, owner: seq<Owner>, blocks: map<nat, nat>, first: nat, hits: set<nat>)
    requires Owned(bits, owner, blocks) && first in blocks
    requires forall p: nat :: p in hits <==> first <= p < first + blocks[first]
    ensures WholeBlocks(bits, owner, blocks, hits) && Left(blocks, hits) == blocks - {first}
    ensures |owner| == |bits| && first + blocks[first] <= |bits|
    ensures Cleared(bits, hits) == Marked(bits, first, first + blocks[first], false)
    ensures Freed(owner, hits) == Assigned(owner, first, blocks[first], Free)
  {
    assert BlockHit(blocks, first, hits);
    forall s <- blocks | s in hits ensures s == first {
      assert owner[s] == Block(s) && owner[s] == Block(first);
    }
  }

  lemma OnePageIsWhole(bits: seq<bool>, owner: seq<Owner>, blocks: map<nat, nat>, p: nat)
    requires Owned(bits, owner, blocks) && p < |bits| && bits[p]
    ensures WholeBlocks(bits, owner, blocks, {p}) <==> p in blocks && blocks[p] == 1
  {
    if p in blocks && blocks[p] == 1 {
      assert owner[p] == Block(p) && BlockHit(blocks, p, {p});
    } else if owner[p].Block? {
      var s, hits := owner[p].first, {p};
      var q := if s == p then s + 1 else s;
      assert s <= q < s + blocks[s] && q !in hits;
    }
  }

  /** Two live blocks never share a page, and no live block holds a reserved page. */
  lemma BlocksAreDisjoint(bits: seq<bool>, owner: seq<Owner>, blocks: map<nat, nat>, s: nat, t: nat, p: nat)
    requires Owned(bits, owner, blocks) && s in blocks && t in blocks
    requires s <= p < s + blocks[s] && t <= p < t + blocks[t]
    ensures s == t && owner[p] != Reserved
  {
    assert owner[p] == Block(s) && owner[p] == Block(t);
  }

  // ------------------------------------------------------------------ the allocator

  class Allocator {
    const memoryStart: nat
    const lowPages: nat
    const totalPages: nat
    var bits: seq<bool>
    var nowFreePages: nat
    ghost var owner: seq<Owner>
    ghost var blocks: map<nat, nat>

    ghost predicate Valid()
      reads this
    {
      && memoryStart > 0 && memoryStart % PAGE_SIZE == 0
      && lowPages <= totalPages && memoryStart + totalPages * PAGE_SIZE <= UINT32
      && |bits| == totalPages
      && nowFreePages == FreeCount(bits)
      && Owned(bits, owner, blocks)
    }

    function Addr(pfn: nat): (a: nat)
      ensures a == 0 ==> memoryStart == 0
    {
      memoryStart + pfn * PAGE_SIZE
    }

    /** Starts from any bitmap: the pages already marked are reserved. */
    constructor (memoryStart: nat, lowPages: nat, bitmap: seq<bool>, freePages: nat)
      requires memoryStart > 0 && memoryStart % PAGE_SIZE == 0 && lowPages <= |bitmap|
      requires memoryStart + |bitmap| * PAGE_SIZE <= UINT32
      requires freePages == FreeCount(bitmap)
      ensures Valid() && bits == bitmap && blocks == map[]
      ensures this.memoryStart == memoryStart && this.lowPages == lowPages
    {
      this.memoryStart, this.lowPages, this.totalPages := memoryStart, lowPages, |bitmap|;
      bits, nowFreePages, blocks := bitmap, freePages, map[];
      owner := seq(|bitmap|, p requires 0 <= p < |bitmap| => if bitmap[p] then Reserved else Free);
    }

    /** The state after block `first` of `count` pages has been handed out. */
    twostate predicate Claimed(first: nat, count: nat)
      reads this
    {
      first + count <= old(|bits|) && |old(owner)| == |old(bits)|
      && bits == Marked(old(bits), first, first + count, true)
      && owner == Assigned(old(owner), first, count, Block(first))
      && first !in old(blocks) && blocks == old(blocks)[first := count]
    }

    method Claim(first: nat, count: nat)
      requires Valid() && count > 0 && FreeRun(bits, first, count, 0, totalPages)
      modifies this
      ensures Valid() && Claimed(first, count)
    {
      hide Owned, FreeCount;
      ClaimKeepsOwned(bits, owner, blocks, first, count);
      FreeCountMarked(bits, first, first + count, true);
      ghost var before := bits;
      assert bits == Marked(before, first, first, true);
      for j := first to first + count
        invariant bits == Marked(before, first, j, true)
        invariant nowFreePages == old(nowFreePages) && owner == old(owner) && blocks == old(blocks)
      {
        assert Marked(before, first, j, true)[j := true] == Marked(before, first, j + 1, true);
        bits := bits[j := true];
      }
      nowFreePages := nowFreePages - count;
      owner := Assigned(owner, first, count, Block(first));
      blocks := blocks[first := count];
    }

    /** The first free page of a zone. */
    method FindFree(from: nat, until: nat) returns (found: bool, pfn: nat)
      requires Valid() && from <= until <= totalPages
      ensures found ==> LowestFreeRun(bits, pfn, 1, from, until)
      ensures !found ==> NoFreeRun(bits, 1, from, until)
    {
      for i := from to until
        invariant forall p :: from <= p < i ==> bits[p]
      {
        if !bits[i] {
          assert forall p: nat :: FreeRun(bits, p, 1, from, until) ==> !bits[p];
          return true, i;
        }
      }
      assert forall p: nat :: FreeRun(bits, p, 1, from, until) ==> !bits[p];
      return false, 0;
    }

    method AllocZone(from: nat, until: nat) returns (page: nat)
      requires Valid() && from <= until <= totalPages
      modifies this
      ensures Valid()
      ensures page == NULL <==> NoFreeRun(old(bits), 1, from, until)
      ensures page == NULL ==> unchanged(this)
      ensures page != NULL ==> exists pfn: nat :: page == Addr(pfn) && Claimed(pfn, 1)
                                                  && LowestFreeRun(old(bits), pfn, 1, from, until)
    {
      var found, pfn := FindFree(from, until);
      if !found {
        return NULL;
      }
      Claim(pfn, 1);
      return Addr(pfn);
    }

    method AllocPage() returns (page: nat)
      requires Valid()
      modifies this
      ensures Valid()
      ensures page == NULL <==> NoFreeRun(old(bits), 1, 0, lowPages)
      ensures page == NULL ==> unchanged(this)
      ensures page != NULL ==> exists pfn: nat :: page == Addr(pfn) && Claimed(pfn, 1)
                                                  && LowestFreeRun(old(bits), pfn, 1, 0, lowPages)
    {
      page := AllocZone(0, lowPages);
    }

    method AllocPageHigh() returns (page: nat)
      requires Valid()
      modifies this
      ensures Valid()
      ensures page == NULL <==> NoFreeRun(old(bits), 1, lowPages, totalPages)
      ensures page == NULL ==> unchanged(this)
      ensures page != NULL ==> exists pfn: nat :: page == Addr(pfn) && Claimed(pfn, 1)
                                                  && LowestFreeRun(old(bits), pfn, 1, lowPages, totalPages)
    {
      page := AllocZone(lowPages, totalPages);
    }

    /** One pass over the low pages, counting how many free pages end at the current one. */
    method FindRun(count: nat) returns (found: bool, first: nat)
      requires Valid() && count > 1
      ensures found ==> LowestFreeRun(bits, first, count, 0, lowPages)
      ensures !found ==> NoFreeRun(bits, count, 0, lowPages)
    {
      var consecutive, startPfn := 0, 0;
      for i := 0 to lowPages
        invariant consecutive <= i && consecutive < count
        invariant consecutive > 0 ==> startPfn == i - consecutive
        invariant forall p :: i - consecutive <= p < i ==> !bits[p]
        invariant i > consecutive ==> bits[i - consecutive - 1]
        invariant NoFreeRun(bits, count, 0, i)
      {
        if !bits[i] {
          if consecutive == 0 {
            startPfn := i;
          }
          consecutive := consecutive + 1;
          if consecutive == count {
            RunIsLowest(bits, startPfn, count, i, lowPages);
            return true, startPfn;
          }
          RunEndsHere(bits, count, i, consecutive, i + 1);
        } else {
          RunBroken(bits, count, i, i + 1);
          consecutive := 0;
        }
      }
      return false, 0;
    }

    method AllocPages(count: nat) returns (page: nat)
      requires Valid()
      modifies this
      ensures Valid()
      ensures page == NULL <==> count == 0 || NoFreeRun(old(bits), count, 0, lowPages)
      ensures page == NULL ==> unchanged(this)
      ensures page != NULL ==> exists pfn: nat :: page == Addr(pfn) && Claimed(pfn, count)
                                                  && LowestFreeRun(old(bits), pfn, count, 0, lowPages)
    {
      if count == 0 {
        return NULL;
      }
      if count == 1 {
        page := AllocPage();
        return;
      }
      var found, first := FindRun(count);
      if !found {
        return NULL;
      }
      Claim(first, count);
      return Addr(first);
    }

    /** Bad addresses, unaligned addresses and pages that are free are reported and change nothing, so
        only a page's own address clears its bit. */
    method FreeFrame(page: nat)
      requires 0 < memoryStart && memoryStart % PAGE_SIZE == 0
      requires |bits| == totalPages && nowFreePages == FreeCount(bits)
      modifies this`bits, this`nowFreePages
      ensures |bits| == totalPages && nowFreePages == FreeCount(bits)
      ensures forall p: nat :: p < totalPages ==> (bits[p] <==> old(bits)[p] && Addr(p) != page)
    {
      hide FreeCount;
      forall p: nat | p < totalPages ensures Addr(p) % PAGE_SIZE == 0 && (Addr(p) - memoryStart) / PAGE_SIZE == p {
        PageOf(memoryStart, p);
      }
      if page == NULL || page < memoryStart || page >= memoryStart + totalPages * PAGE_SIZE {
        return;
      }
      if page % PAGE_SIZE != 0 {
        return;
      }
      var pfn := (page - memoryStart) / PAGE_SIZE;
      if !bits[pfn] {
        return;
      }
      FreeCountUpdate(bits, pfn, false);
      bits := bits[pfn := false];
      nowFreePages := nowFreePages + 1;
    }

    /** The pages whose address is one of the `count` addresses from `page` on, in 32-bit arithmetic. */
    ghost function Hits(page: nat, count: nat): set<nat> {
      set p: nat | p < totalPages && exists i: nat :: i < count && Target(page, i) == Addr(p)
    }

    /** What freeing the pages `hits` did: some ownership still fits iff the allocated ones make up whole
        blocks, and then exactly these blocks are gone. */
    twostate predicate Released(hits: set<nat>)
      reads this
    {
      && bits == Cleared(old(bits), hits) && nowFreePages == FreeCount(bits)
      && (Valid() <==> Explained(bits, old(owner), old(blocks)))
      && (Valid() <==> WholeBlocks(old(bits), old(owner), old(blocks), hits))
      && (Valid() ==> owner == Freed(old(owner), hits) && blocks == Left(old(blocks), hits))
    }

    /** Brings the ghost state up to date once the bits of `hits` are clear. */
    ghost method Settle(hits: set<nat>, before: seq<bool>)
      requires bits == Cleared(before, hits) && nowFreePages == FreeCount(bits) && Owned(before, owner, blocks)
      requires memoryStart > 0 && memoryStart % PAGE_SIZE == 0 && lowPages <= totalPages
      requires memoryStart + totalPages * PAGE_SIZE <= UINT32 && |bits| == totalPages
      modifies this`owner, this`blocks
      ensures Valid() <==> WholeBlocks(before, old(owner), old(blocks), hits)
      ensures Valid() <==> Explained(bits, old(owner), old(blocks))
      ensures Valid() ==> owner == Freed(old(owner), hits) && blocks == Left(old(blocks), hits)
    {
      hide FreeCount, Owned, WholeBlocks, Explained;
      ReleaseIff(before, owner, blocks, hits);
      if WholeBlocks(before, owner, blocks, hits) {
        ReleaseKeepsOwned(before, owner, blocks, hits);
        owner, blocks := Freed(owner, hits), Left(blocks, hits);
      } else {
        OwnedIsExplained(bits, owner, blocks);
      }
    }

    method FreePage(page: nat)
      requires Valid()
      modifies this
      ensures Released(set p: nat | p < totalPages && Addr(p) == page)
    {
      hide Owned, FreeCount, WholeBlocks, Explained;
      ghost var hits := set p: nat | p < totalPages && Addr(p) == page;
      FreeFrame(page);
      assert bits == Cleared(old(bits), hits);
      Settle(hits, old(bits));
    }

    method FreePages(page: nat, count: nat)
      requires Valid()
      modifies this
      ensures page == NULL ==> unchanged(this)
      ensures page != NULL ==> Released(Hits(page, count))
    {
      hide Owned, FreeCount, WholeBlocks, Explained;
      if page == NULL || count == 0 {
        NothingReleased(bits, owner, blocks);
        OwnedIsExplained(bits, owner, blocks);
        assert Hits(page, 0) == {};
        return;
      }
      for i := 0 to count
        invariant |bits| == totalPages && nowFreePages == FreeCount(bits)
        invariant bits == Cleared(old(bits), Hits(page, i))
        invariant owner == old(owner) && blocks == old(blocks)
      {
        ghost var hits := Hits(page, i);
        FreeFrame(Target(page, i));
        HitsNext(page, i);
        assert bits == Cleared(old(bits), Hits(page, i + 1));
      }
      Settle(Hits(page, count), old(bits));
    }

    lemma HitsNext(page: nat, i: nat)
      ensures forall p: nat ::
                p in Hits(page, i + 1) <==> p in Hits(page, i) || (p < totalPages && Target(page, i) == Addr(p))
    {
    }

    /** Freeing a live block gives back exactly its pages. */
    method FreeBlock(page: nat, count: nat, ghost first: nat)
      requires Valid() && page == Addr(first) && first in blocks && count == blocks[first]
      modifies this
      ensures Valid() && blocks == old(blocks) - {first} && first + count <= |old(bits)| == |old(owner)|
      ensures bits == Marked(old(bits), first, first + count, false)
      ensures owner == Assigned(old(owner), first, count, Free)
    {
      hide Owned, FreeCount, WholeBlocks, Explained;
      OwnedFacts(bits, owner, blocks, first);
      BlockHits(first, count);
      BlockIsWhole(bits, owner, blocks, first, Hits(page, count));
      FreePages(page, count);
    }

    lemma BlockHits(first: nat, count: nat)
      requires memoryStart + totalPages * PAGE_SIZE <= UINT32 && first + count <= totalPages
      ensures forall p: nat :: p in Hits(Addr(first), count) <==> first <= p < first + count
    {
      forall i: nat | i < count ensures Target(Addr(first), i) == Addr(first + i) {
      }
      forall p: nat | first <= p < first + count ensures p in Hits(Addr(first), count) {
        assert Target(Addr(first), p - first) == Addr(p);
      }
    }

    /** Freeing one allocated page keeps ownership right iff the page is a block by itself. */
    lemma OnePage(page: nat, p: nat)
      requires Valid() && p < totalPages && bits[p] && page == Addr(p)
      ensures (set q: nat | q < totalPages && Addr(q) == page) == {p}
      ensures WholeBlocks(bits, owner, blocks, {p}) <==> p in blocks && blocks[p] == 1
    {
      OnePageIsWhole(bits, owner, blocks, p);
    }
  }

  function Target(page: nat, i: nat): nat {
    (page + i * PAGE_SIZE) % UINT32
  }

  lemma OwnedFacts(bits: seq<bool>, owner: seq<Owner>, blocks: map<nat, nat>, first: nat)
    requires Owned(bits, owner, blocks) && first in blocks
    ensures |owner| == |bits| && first + blocks[first] <= |bits|
  {
  }

  lemma PageOf(memoryStart: nat, pfn: nat)
    requires memoryStart % PAGE_SIZE == 0
    ensures (memoryStart + pfn * PAGE_SIZE) % PAGE_SIZE == 0
    ensures (memoryStart + pfn * PAGE_SIZE - memoryStart) / PAGE_SIZE == pfn
  {
  }

  // Steps of the one-pass search: `k` free pages end just after page `i`.

  lemma RunEndsHere(bits: seq<bool>, count: nat, i: nat, k: nat, end: nat)
    requires i < |bits| && 0 < k < count && k <= i + 1 == end
    requires NoFreeRun(bits, count, 0, i)
    requires k <= i ==> bits[i - k]
    ensures NoFreeRun(bits, count, 0, end)
  {
    forall p: nat
      ensures !FreeRun(bits, p, count, 0, end)
    {
      assert !FreeRun(bits, p, count, 0, i);
      assert FreeRun(bits, p, count, 0, end) ==> p + count <= i || p <= i - k < p + count;
    }
  }

  lemma RunBroken(bits: seq<bool>, count: nat, i: nat, end: nat)
    requires i < |bits| && bits[i] && count > 0 && end == i + 1 && NoFreeRun(bits, count, 0, i)
    ensures NoFreeRun(bits, count, 0, end)
  {
    forall p: nat
      ensures !FreeRun(bits, p, count, 0, end)
    {
      assert !FreeRun(bits, p, count, 0, i);
      assert FreeRun(bits, p, count, 0, end) ==> p + count <= i || p <= i < p + count;
    }
  }

  lemma RunIsLowest(bits: seq<bool>, first: nat, count: nat, i: nat, low: nat)
    requires i < low <= |bits| && first + count == i + 1
    requires NoFreeRun(bits, count, 0, i) && forall p :: first <= p <= i ==> !bits[p]
    ensures LowestFreeRun(bits, first, count, 0, low)
  {
    forall p: nat | FreeRun(bits, p, count, 0, low)
      ensures first <= p
    {
      assert p + count <= i ==> FreeRun(bits, p, count, 0, i);
    }
  }
}
