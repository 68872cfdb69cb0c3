/**
  The kernel heap: every block is a run of pages that starts with an eight-byte header holding its
  page count.

  `mem` is the directly mapped memory, byte 0 being the first byte of page 0.
  */
module Kmalloc {
  import opened Bytes
  import opened PageAllocator

  const HEADER := 8

  /** Pages requested for `size` bytes, in 32-bit arithmetic. */
  function PagesFor(size: nat): nat {
    ((HEADER + size) % UINT32 + PAGE_SIZE - 1) % UINT32 / PAGE_SIZE
  }

  /** Usable bytes of a block. */
  function Room(pages: nat): int {
    pages * PAGE_SIZE - HEADER
  }

  /** A block that is handed out is large enough iff adding the header does not overflow. */
  lemma KmallocRoom(size: nat)
    requires 0 < size < UINT32 && PagesFor(size) > 0
    ensures Room(PagesFor(size)) >= size <==> size + HEADER < UINT32
  {
  }

  /** Four gigabytes less one byte are answered with a single page. */
  lemma KmallocCanBeShort()
    ensures PagesFor(0xFFFF_FFFF) == 1 && Room(1) == 4088
  {
  }

  /** The old contents of a block that must grow fit the new block, or no new block is handed out,
      iff the size did not overflow or the old block is a single page. */
  predicate CopyFits(pages: nat, newSize: nat) {
    newSize + HEADER <= UINT32 || pages == 1
  }

  lemma ReallocFits(pages: nat, newSize: nat)
    requires pages > 0 && Room(pages) < newSize < UINT32
    ensures PagesFor(newSize) == 0 || Room(pages) <= Room(PagesFor(newSize)) <==> CopyFits(pages, newSize)
  {
    if newSize + HEADER > UINT32 {
      assert PagesFor(newSize) == 1;
    }
  }

  // ------------------------------------------------------------------ memory contents

  /** The bytes a block offers its owner. */
  ghost function Data(mem: seq<byte>, blocks: map<nat, nat>, s: nat): (d: seq<byte>)
    requires s in blocks && blocks[s] > 0 && (s + blocks[s]) * PAGE_SIZE <= |mem|
    ensures |d| == Room(blocks[s])
  {
    mem[s * PAGE_SIZE + HEADER..(s + blocks[s]) * PAGE_SIZE]
  }

  ghost predicate Fits(blocks: map<nat, nat>, total: nat, s: nat) {
    s in blocks && 0 < blocks[s] < UINT32 && s + blocks[s] <= total
  }

  /** Every heap block is a live block whose header holds its length. */
  ghost predicate Headed(mem: seq<byte>, blocks: map<nat, nat>, heap: set<nat>, total: nat) {
    |mem| == total * PAGE_SIZE &&
    forall s <- heap :: Fits(blocks, total, s) && Word4(mem[s * PAGE_SIZE..s * PAGE_SIZE + 4]) == blocks[s]
  }

  ghost predicate Apart(blocks: map<nat, nat>, s: nat, t: nat)
    requires s in blocks && t in blocks
  {
    s + blocks[s] <= t || t + blocks[t] <= s
  }

  lemma BlocksApart(bits: seq<bool>, owner: seq<Owner>, blocks: map<nat, nat>, s: nat, t: nat)
    requires Owned(bits, owner, blocks) && s in blocks && t in blocks && s != t
    ensures Apart(blocks, s, t)
  {
    if !Apart(blocks, s, t) {
      BlocksAreDisjoint(bits, owner, blocks, s, t, if s < t then t else s);
    }
  }

  /** Writing inside block `s`, at `at`, leaves the headers and the data of the other blocks alone. */
  lemma WriteIsLocal(mem: seq<byte>, blocks: map<nat, nat>, total: nat, s: nat, t: nat, at: nat, bytes: seq<byte>)
    requires |mem| == total * PAGE_SIZE && Fits(blocks, total, s) && Fits(blocks, total, t) && Apart(blocks, s, t)
    requires s * PAGE_SIZE <= at && at + |bytes| <= (s + blocks[s]) * PAGE_SIZE
    ensures Data(Splice(mem, at, bytes), blocks, t) == Data(mem, blocks, t)
    ensures Splice(mem, at, bytes)[t * PAGE_SIZE..t * PAGE_SIZE + 4] == mem[t * PAGE_SIZE..t * PAGE_SIZE + 4]
  {
  }

  /** Writing the header of a new block. */
  lemma HeaderAdded(mem: seq<byte>, blocks: map<nat, nat>, heap: set<nat>, total: nat, s: nat)
    requires Headed(mem, blocks, heap, total) && s !in heap && Fits(blocks, total, s)
    requires forall t <- heap :: Apart(blocks, s, t)
    ensures
      var mem' := Splice(mem, s * PAGE_SIZE, Bytes4(blocks[s]) + Bytes4(0));
      Headed(mem', blocks, heap + {s}, total)
      && forall t <- heap :: Data(mem', blocks, t) == Data(mem, blocks, t)
  {
    var header := Bytes4(blocks[s]) + Bytes4(0);
    var mem' := Splice(mem, s * PAGE_SIZE, header);
    forall t <- heap
      ensures Word4(mem'[t * PAGE_SIZE..t * PAGE_SIZE + 4]) == blocks[t]
      ensures Data(mem', blocks, t) == Data(mem, blocks, t)
    {
      WriteIsLocal(mem, blocks, total, s, t, s * PAGE_SIZE, header);
    }
    WordRoundTrip(blocks[s]);
    assert mem'[s * PAGE_SIZE..s * PAGE_SIZE + 4] == header[..4] == Bytes4(blocks[s]);
  }

  lemma OwnDataWritten(mem: seq<byte>, blocks: map<nat, nat>, total: nat, s: nat, i: nat, bytes: seq<byte>)
    requires |mem| == total * PAGE_SIZE && Fits(blocks, total, s) && i + |bytes| <= Room(blocks[s])
    ensures
      var mem' := Splice(mem, s * PAGE_SIZE + HEADER + i, bytes);
      Data(mem', blocks, s) == Splice(Data(mem, blocks, s), i, bytes)
      && mem'[s * PAGE_SIZE..s * PAGE_SIZE + 4] == mem[s * PAGE_SIZE..s * PAGE_SIZE + 4]
  {
    var at := s * PAGE_SIZE + HEADER + i;
    var mem', d := Splice(mem, at, bytes), Data(mem, blocks, s);
    assert mem' == mem[..at] + bytes + mem[at + |bytes|..];
    var d', e := Data(mem', blocks, s), d[..i] + bytes + d[i + |bytes|..];
    var base := s * PAGE_SIZE + HEADER;
    forall k: nat | k < |d|
      ensures d'[k] == e[k]
    {
      assert d'[k] == mem'[base + k] && d[k] == mem[base + k];
    }
    assert d' == e;
  }

  /** Writing into the data of a block keeps every header and the other blocks' data. */
  lemma DataWritten(mem: seq<byte>, blocks: map<nat, nat>, heap: set<nat>, total: nat, s: nat, i: nat, bytes: seq<byte>)
    requires Headed(mem, blocks, heap, total) && s in heap && i + |bytes| <= Room(blocks[s])
    requires forall t <- heap :: t != s ==> Apart(blocks, s, t)
    ensures
      var mem' := Splice(mem, s * PAGE_SIZE + HEADER + i, bytes);
      Headed(mem', blocks, heap, total)
      && Data(mem', blocks, s) == Splice(Data(mem, blocks, s), i, bytes)
      && forall t <- heap :: t != s ==> Data(mem', blocks, t) == Data(mem, blocks, t)
  {
    hide Splice, Data, Word4, Apart;
    var at := s * PAGE_SIZE + HEADER + i;
    var mem' := Splice(mem, at, bytes);
    OwnDataWritten(mem, blocks, total, s, i, bytes);
    forall t <- heap | t != s
      ensures Word4(mem'[t * PAGE_SIZE..t * PAGE_SIZE + 4]) == blocks[t]
      ensures Data(mem', blocks, t) == Data(mem, blocks, t)
    {
      WriteIsLocal(mem, blocks, total, s, t, at, bytes);
    }
  }

  lemma AllApart(bits: seq<bool>, owner: seq<Owner>, blocks: map<nat, nat>, heap: set<nat>, s: nat)
    requires Owned(bits, owner, blocks) && s in blocks && heap <= blocks.Keys
    ensures forall t <- heap :: t != s ==> Apart(blocks, s, t)
  {
    forall t <- heap | t != s
      ensures Apart(blocks, s, t)
    {
      BlocksApart(bits, owner, blocks, s, t);
    }
  }

  lemma HeadedFits(mem: seq<byte>, blocks: map<nat, nat>, heap: set<nat>, total: nat)
    requires Headed(mem, blocks, heap, total)
    ensures heap <= blocks.Keys && forall s <- heap :: Fits(blocks, total, s)
  {
  }

  /** Blocks outside the heap may come and go. */
  lemma HeadedElsewhere(mem: seq<byte>, blocks: map<nat, nat>, blocks': map<nat, nat>, heap: set<nat>,
                        heap': set<nat>, total: nat)
    requires Headed(mem, blocks, heap, total) && heap' <= heap
    requires forall t <- heap' :: t in blocks && t in blocks' && blocks'[t] == blocks[t]
    ensures Headed(mem, blocks', heap', total)
    ensures forall t <- heap' :: Fits(blocks, total, t) && Fits(blocks', total, t)
                                 && Data(mem, blocks', t) == Data(mem, blocks, t)
  {
  }

  /** Copying the data of `s` to the front of the data of `t`. */
  lemma DataCopied(mem: seq<byte>, blocks: map<nat, nat>, heap: set<nat>, total: nat, s: nat, t: nat)
    requires Headed(mem, blocks, heap, total) && s in heap && t in heap && s != t && blocks[s] <= blocks[t]
    requires forall u <- heap :: u != t ==> Apart(blocks, t, u)
    ensures
      var mem' := Splice(mem, t * PAGE_SIZE + HEADER, Data(mem, blocks, s));
      Headed(mem', blocks, heap, total)
      && Data(mem, blocks, s) <= Data(mem', blocks, t)
      && forall u <- heap :: u != t ==> Data(mem', blocks, u) == Data(mem, blocks, u)
  {
    hide Data, Word4, Apart;
    var d := Data(mem, blocks, s);
    DataWritten(mem, blocks, heap, total, t, 0, d);
    assert Splice(Data(mem, blocks, t), 0, d)[0..|d|] == d;
  }

  /** A block just handed out gets its header. */
  lemma NewBlock(bits: seq<bool>, owner: seq<Owner>, blocks: map<nat, nat>, mem: seq<byte>, before: map<nat, nat>,
                 heap: set<nat>, total: nat, s: nat)
    requires |bits| == total && Owned(bits, owner, blocks) && Headed(mem, before, heap, total)
    requires s in blocks && s !in before && blocks == before[s := blocks[s]] && blocks[s] < UINT32
    ensures Fits(blocks, total, s) && s !in heap && |mem| == total * PAGE_SIZE
    ensures
      var mem' := Splice(mem, s * PAGE_SIZE, Bytes4(blocks[s]) + Bytes4(0));
      Headed(mem', blocks, heap + {s}, total)
      && forall t <- heap :: Fits(before, total, t) && Fits(blocks, total, t)
                             && Data(mem', blocks, t) == Data(mem, before, t)
  {
    hide Data, Bytes4, Word4;
    HeadedElsewhere(mem, before, blocks, heap, heap, total);
    AllApart(bits, owner, blocks, heap, s);
    HeaderAdded(mem, blocks, heap, total, s);
  }

  // ------------------------------------------------------------------ the heap

  class Heap {
    const pages: Allocator
    var mem: seq<byte>
    ghost var heap: set<nat>

    ghost predicate Valid()
      reads this, pages
    {
      pages.Valid() && Headed(mem, pages.blocks, heap, pages.totalPages)
    }

    ghost predicate Live(ptr: nat, s: nat)
      reads this
    {
      s in heap && ptr == pages.Addr(s) + HEADER
    }

    constructor (pages: Allocator, mem: seq<byte>)
      requires pages.Valid() && |mem| == pages.totalPages * PAGE_SIZE
      ensures Valid() && this.pages == pages && this.mem == mem && heap == {}
    {
      this.pages, this.mem, heap := pages, mem, {};
    }

    lemma Facts(s: nat)
      requires Valid() && s in heap
      ensures Fits(pages.blocks, pages.totalPages, s) && |mem| == pages.totalPages * PAGE_SIZE
      ensures heap <= pages.blocks.Keys && |pages.owner| == |pages.bits| == pages.totalPages
      ensures forall t <- heap :: t != s ==> Apart(pages.blocks, s, t)
      ensures pages.Addr(s) - pages.memoryStart == s * PAGE_SIZE
      ensures Word4(mem[s * PAGE_SIZE..s * PAGE_SIZE + 4]) == pages.blocks[s]
    {
      AllApart(pages.bits, pages.owner, pages.blocks, heap, s);
    }

    /** The data of block `s`. */
    ghost function Contents(s: nat): (d: seq<byte>)
      requires Valid() && s in heap
      reads this, pages
      ensures |d| == Room(pages.blocks[s])
    {
      HeadedFits(mem, pages.blocks, heap, pages.totalPages);
      Data(mem, pages.blocks, s)
    }

    /** A fresh block whose header is written; the data of the other blocks is as before. */
    method Kmalloc(size: nat) returns (ptr: nat, ghost s: nat)
      requires Valid() && size < UINT32
      modifies this, pages
      ensures Valid()
      ensures ptr == NULL <==> size == 0 || PagesFor(size) == 0
                               || NoFreeRun(old(pages.bits), PagesFor(size), 0, pages.lowPages)
      ensures ptr == NULL ==> unchanged(this) && unchanged(pages)
      ensures ptr != NULL ==> Live(ptr, s) && heap == old(heap) + {s}
      ensures ptr != NULL ==> s !in old(pages.blocks) && pages.blocks == old(pages.blocks)[s := PagesFor(size)]
      ensures ptr != NULL ==> LowestFreeRun(old(pages.bits), s, PagesFor(size), 0, pages.lowPages)
      ensures forall t <- old(heap) :: t in heap && Contents(t) == old(Contents(t))
    {
      hide Owned, NoFreeRun, LowestFreeRun, FreeCount, PagesFor, Headed, Apart;
      HeadedFits(mem, pages.blocks, heap, pages.totalPages);
      if size == 0 {
        return NULL, 0;
      }
      var total := (HEADER + size) % UINT32;
      var count := (total + PAGE_SIZE - 1) % UINT32 / PAGE_SIZE;
      assert count == PagesFor(size) by { PagesForIs(size); }
      var phys := pages.AllocPages(count);
      if phys == NULL {
        return NULL, 0;
      }
      s :| phys == pages.Addr(s) && pages.Claimed(s, count)
           && LowestFreeRun(old(pages.bits), s, count, 0, pages.lowPages);
      var at := phys - pages.memoryStart;
      NewBlock(pages.bits, pages.owner, pages.blocks, mem, old(pages.blocks), heap, pages.totalPages, s);
      mem := Splice(mem, at, Bytes4(count) + Bytes4(0));
      ptr := phys + HEADER;
      heap := heap + {s};
    }

    /** Gives the pages back; the data of the other blocks is as before. */
    method Kfree(ptr: nat, ghost s: nat)
      requires Valid() && (ptr == NULL || Live(ptr, s))
      modifies this, pages
      ensures Valid() && mem == old(mem)
      ensures ptr == NULL ==> unchanged(this) && unchanged(pages)
      ensures ptr != NULL ==> heap == old(heap) - {s} && pages.blocks == old(pages.blocks) - {s}
      ensures forall t <- old(heap) :: ptr == NULL || t != s ==> t in heap && Contents(t) == old(Contents(t))
    {
      hide Owned, FreeCount, Headed, Apart, Word4;
      HeadedFits(mem, pages.blocks, heap, pages.totalPages);
      if ptr == NULL {
        return;
      }
      Facts(s);
      var at := ptr - HEADER - pages.memoryStart;
      var count := Word4(mem[at..at + 4]);
      HeadedElsewhere(mem, pages.blocks, pages.blocks - {s}, heap, heap - {s}, pages.totalPages);
      pages.FreeBlock(ptr - HEADER, count, s);
      heap := heap - {s};
    }

    /** A client stores a byte in its own block. */
    method Store(ptr: nat, i: nat, b: byte, ghost s: nat)
      requires Valid() && Live(ptr, s) && i < Room(pages.blocks[s])
      modifies this`mem
      ensures Valid() && Contents(s) == old(Contents(s))[i := b]
      ensures forall t <- heap :: t != s ==> Contents(t) == old(Contents(t))
    {
      hide Owned, FreeCount, Headed, Apart, Word4, Data;
      Facts(s);
      DataWritten(mem, pages.blocks, heap, pages.totalPages, s, i, [b]);
      HeadedFits(mem, pages.blocks, heap, pages.totalPages);
      assert Splice(Contents(s), i, [b]) == Contents(s)[i := b];
      mem := Splice(mem, ptr - pages.memoryStart + i, [b]);
    }

    /** Growing a block keeps its contents; when there is no room the old block stays as it was. When
        the size wraps around, the new block can be too small for the copy: `outside` says so, and the
        model stops before the copy. */
    method Krealloc(ptr: nat, newSize: nat, ghost s: nat) returns (r: nat, outside: bool, ghost t: nat)
      requires Valid() && newSize < UINT32 && (ptr == NULL || Live(ptr, s))
      modifies this, pages
      ensures Valid()
      ensures outside <==> ptr != NULL && Room(old(pages.blocks[s])) < newSize
                           && !CopyFits(old(pages.blocks[s]), newSize)
                           && !NoFreeRun(old(pages.bits), PagesFor(newSize), 0, pages.lowPages)
      ensures r != NULL ==> Live(r, t)
      ensures ptr != NULL && newSize == 0 ==> r == NULL && heap == old(heap) - {s}
      ensures ptr != NULL && newSize != 0 && r == NULL ==> unchanged(this) && unchanged(pages)
      ensures ptr != NULL && r != NULL && !outside ==>
                heap == old(heap) - {s} + {t} && old(Contents(s)) <= Contents(t)
                && (newSize + HEADER < UINT32 ==> |Contents(t)| >= newSize)
      ensures ptr != NULL && newSize != 0 && Room(old(pages.blocks[s])) >= newSize ==> r == ptr
      ensures ptr != NULL && Room(old(pages.blocks[s])) < newSize ==>
                (r == NULL <==> PagesFor(newSize) == 0
                                || NoFreeRun(old(pages.bits), PagesFor(newSize), 0, pages.lowPages))
      ensures forall u <- old(heap) :: ptr == NULL || u != s ==> u in heap && Contents(u) == old(Contents(u))
    {
      hide Owned, FreeCount, Headed, Apart, Word4, PagesFor, NoFreeRun;
      HeadedFits(mem, pages.blocks, heap, pages.totalPages);
      if ptr == NULL {
        r, t := Kmalloc(newSize);
        return r, false, t;
      }
      if newSize == 0 {
        Kfree(ptr, s);
        return NULL, false, 0;
      }
      Facts(s);
      var at := ptr - HEADER - pages.memoryStart;
      var oldSize := Word4(mem[at..at + 4]) * PAGE_SIZE - HEADER;
      if newSize <= oldSize {
        return ptr, false, s;
      }
      ReallocFits(pages.blocks[s], newSize);
      r, t := Kmalloc(newSize);
      outside := r != NULL && Room(PagesFor(newSize)) < oldSize;
      if r == NULL || outside {
        return;
      }
      if newSize + HEADER < UINT32 {
        KmallocRoom(newSize);
      }
      CopyInto(r, ptr, oldSize, t, s);
      Kfree(ptr, s);
    }

    /** The copy of `krealloc`: the whole data of `s` goes to the front of the data of `t`. */
    method CopyInto(dst: nat, src: nat, size: nat, ghost t: nat, ghost s: nat)
      requires Valid() && Live(dst, t) && Live(src, s) && s != t
      requires size == Room(pages.blocks[s]) <= Room(pages.blocks[t])
      modifies this`mem
      ensures Valid() && Contents(s) <= Contents(t)
      ensures forall u <- heap :: u != t ==> Contents(u) == old(Contents(u))
    {
      hide Owned, FreeCount, Headed, Apart, Word4, Splice;
      Facts(s);
      Facts(t);
      HeadedFits(mem, pages.blocks, heap, pages.totalPages);
      var from, into := src - pages.memoryStart, dst - pages.memoryStart;
      DataCopied(mem, pages.blocks, heap, pages.totalPages, s, t);
      mem := Splice(mem, into, mem[from..from + size]);
    }
  }

  lemma PagesForIs(size: nat)
    ensures PagesFor(size) == ((HEADER + size) % UINT32 + PAGE_SIZE - 1) % UINT32 / PAGE_SIZE
  {
  }
}
