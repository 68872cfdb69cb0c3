/**
  Loading an ELF32 file from physical memory into an empty address space.

  Physical memory is one sequence of 4 GiB; the page table maps virtual page numbers to page frames.
  `alloc_page_high` is the supply of page frames, and `unmappable` holds the virtual pages for which
  the memory manager refuses a mapping.
  */
module ElfLoader {
  import opened Bytes
  import PageAllocator

  const P := 4096
  const FRAMES := 0x10_0000
  const PT_LOAD := 1
  const EHDR_SIZE := 52
  const PHDR_SIZE := 32
  const USER_STACK_TOP := 0xBFFF_F000
  const STACK_PAGES := 16
  const BUF_SIZE := 256

  const OK := 0
  const EINVAL := -22
  const EFAULT := -14
  const ENOMEM := -12

  // ---------------------------------------------------------------------- the file

  function ByteAt(mem: seq<byte>, a: nat): byte {
    if a < |mem| then mem[a] else 0
  }

  /** The file: `size` bytes of the initial memory, from address `base`. */
  datatype Image = Image(mem: seq<byte>, base: nat, size: nat) {
    function Byte(off: nat): byte {
      ByteAt(mem, base + off)
    }

    function Half(off: nat): nat {
      Byte(off) as int + 256 * Byte(off + 1) as int
    }

    function Word(off: nat): (w: nat)
      ensures w < UINT32
    {
      Word4([Byte(off), Byte(off + 1), Byte(off + 2), Byte(off + 3)])
    }

    function PhNum(): nat { Half(44) }

    function Segment(i: nat): Segment {
      var at := Word(28) + i * PHDR_SIZE;
      Phdr(Word(at), Word(at + 4), Word(at + 8), Word(at + 16), Word(at + 20))
    }

    predicate HeaderOk() {
      && size >= EHDR_SIZE
      && Byte(0) == 0x7F && Byte(1) == 0x45 && Byte(2) == 0x4C && Byte(3) == 0x46
      && Byte(4) == 1 && Byte(5) == 1
      && Half(16) == 2 && Half(18) == 3 && Word(20) == 1
      && Half(42) == PHDR_SIZE
      && Word(28) + PhNum() * PHDR_SIZE <= size
    }

    /** What the loader demands of a file, short of memory. */
    ghost predicate Accepted() {
      base != 0 && HeaderOk() && forall i: nat :: i < PhNum() ==> Segment(i).Ok(size)
    }
  }

  datatype Segment = Phdr(ptype: nat, offset: nat, vaddr: nat, filesz: nat, memsz: nat) {
    predicate Ok(size: nat) {
      ptype == PT_LOAD ==> filesz <= memsz && offset + filesz <= size && vaddr + memsz < UINT32
    }

    /** The file part of the segment holds the byte for `va`. */
    predicate Covers(va: nat) {
      ptype == PT_LOAD && vaddr <= va < vaddr + filesz
    }

    /** First page, and the page after the last one in 32-bit arithmetic. */
    function FirstPage(): nat { vaddr / P }

    function EndPage(): nat { AlignUp(vaddr + memsz) / P }

    predicate HasPage(v: nat) {
      ptype == PT_LOAD && FirstPage() <= v < EndPage()
    }

    /** The end, rounded up, is past the last 32-bit address. */
    predicate Wraps() {
      ptype == PT_LOAD && vaddr + memsz + P - 1 >= UINT32
    }
  }

  /** Round up to a page boundary, in 32-bit arithmetic. */
  function AlignUp(a: nat): (r: nat)
    ensures r % P == 0
    ensures a + P - 1 < UINT32 ==> a <= r < a + P
  {
    (a + P - 1) % UINT32 / P * P
  }

  /** The byte the first `n` segments put at `va`. */
  function Expected(img: Image, n: nat, va: nat): byte {
    if n == 0 then 0
    else
      var s := img.Segment(n - 1);
      if s.Covers(va) then img.Byte(s.offset + (va - s.vaddr)) else Expected(img, n - 1, va)
  }

  /** The last covering segment wins. */
  lemma {:induction false} LastSegmentWins(img: Image, n: nat, i: nat, va: nat)
    requires i < n && img.Segment(i).Covers(va)
    requires forall j: nat :: i < j < n ==> !img.Segment(j).Covers(va)
    ensures Expected(img, n, va) == img.Byte(img.Segment(i).offset + (va - img.Segment(i).vaddr))
  {
    hide Image.Segment, Image.Byte;
    if i < n - 1 {
      assert !img.Segment(n - 1).Covers(va);
      LastSegmentWins(img, n - 1, i, va);
    }
  }

  /** Bytes in no file part are zero. */
  lemma {:induction false} UncoveredIsZero(img: Image, n: nat, va: nat)
    requires forall j: nat :: j < n ==> !img.Segment(j).Covers(va)
    ensures Expected(img, n, va) == 0
  {
    hide Image.Segment, Image.Byte;
    if n > 0 {
      assert !img.Segment(n - 1).Covers(va);
      UncoveredIsZero(img, n - 1, va);
    }
  }

  // ---------------------------------------------------------------------- copying

  /** `m1` is `m0` after `len` bytes were copied from `src` to `dst`. */
  ghost predicate Copied(m0: seq<byte>, m1: seq<byte>, dst: nat, src: nat, len: nat) {
    |m1| == |m0| &&
    forall a :: 0 <= a < |m1| ==> m1[a] == if dst <= a < dst + len then ByteAt(m0, src + (a - dst)) else m0[a]
  }

  ghost predicate Zeroed(m0: seq<byte>, m1: seq<byte>, at: nat) {
    |m1| == |m0| &&
    forall a :: 0 <= a < |m1| ==> m1[a] == if at <= a < at + P then 0 else m0[a]
  }

  lemma CopiedMore(m0: seq<byte>, m1: seq<byte>, dst: nat, src: nat, len: nat, chunk: nat)
    requires Copied(m0, m1, dst, src, len)
    requires src + len + chunk <= |m0| && dst + len + chunk <= |m0|
    requires src + len + chunk <= dst || dst <= src
    ensures Copied(m0, Splice(m1, dst + len, m1[src + len..src + len + chunk]), dst, src, len + chunk)
  {
    var buf := m1[src + len..src + len + chunk];
    var m2 := Splice(m1, dst + len, buf);
    assert m2 == m1[..dst + len] + buf + m1[dst + len + chunk..];
  }

  // ---------------------------------------------------------------- address spaces

  type PageTable = map<nat, nat>

  /** The byte a process sees at `va`. */
  ghost function Shown(mem: seq<byte>, pt: PageTable, va: nat): byte {
    if va / P in pt then ByteAt(mem, pt[va / P] * P + va % P) else 0
  }

  ghost predicate Outside(f: nat, img: Image) {
    (f + 1) * P <= img.base || img.base + img.size <= f * P
  }

  ghost predicate Usable(f: nat, img: Image) {
    0 < f < FRAMES && Outside(f, img)
  }

  /** Mapped frames and the frames in supply are all different and none holds a part of the file. */
  ghost predicate Frames(pt: PageTable, supply: seq<nat>, img: Image) {
    && (forall v <- pt :: Usable(pt[v], img) && pt[v] !in supply)
    && (forall v, w :: v in pt && w in pt && pt[v] == pt[w] ==> v == w)
    && (forall k :: 0 <= k < |supply| ==> Usable(supply[k], img))
    && (forall j, k :: 0 <= j < k < |supply| ==> supply[j] != supply[k])
  }

  // -------------------------------------------------------------- where frames come from

  /** The frame a page of the allocator lies in. */
  function FrameOf(memoryStart: nat, p: nat): nat {
    memoryStart / P + p
  }

  /** The file lies in pages that are not free, as the boot modules do. */
  ghost predicate FileHeld(memoryStart: nat, bits: seq<bool>, img: Image) {
    forall p: nat :: p < |bits| && !bits[p] ==> Outside(FrameOf(memoryStart, p), img)
  }

  /** The frames of `pages`, all different, all free before and taken now. */
  ghost predicate Drawn(memoryStart: nat, low: nat, before: seq<bool>, bits: seq<bool>, pages: seq<nat>,
                        supply: seq<nat>) {
    && |supply| == |pages| && |before| == |bits|
    && (forall k :: 0 <= k < |pages| ==> supply[k] == FrameOf(memoryStart, pages[k]))
    && (forall k :: 0 <= k < |pages| ==> low <= pages[k] < |bits| && !before[pages[k]] && bits[pages[k]])
    && (forall j, k :: 0 <= j < k < |pages| ==> pages[j] != pages[k])
    && (forall p: nat :: p < |bits| && before[p] ==> bits[p])
  }

  lemma DrawnNext(memoryStart: nat, low: nat, before: seq<bool>, bits: seq<bool>, pages: seq<nat>, supply: seq<nat>,
                  p: nat)
    requires Drawn(memoryStart, low, before, bits, pages, supply) && low <= p < |bits| && !bits[p]
    ensures Drawn(memoryStart, low, before, bits[p := true], pages + [p], supply + [FrameOf(memoryStart, p)])
  {
    var pages' := pages + [p];
    forall j, k | 0 <= j < k < |pages'| ensures pages'[j] != pages'[k] {
      assert k == |pages| ==> bits[pages[j]];
    }
  }

  lemma DrawnAreFrames(memoryStart: nat, low: nat, before: seq<bool>, bits: seq<bool>, pages: seq<nat>,
                       supply: seq<nat>, img: Image)
    requires Drawn(memoryStart, low, before, bits, pages, supply) && FileHeld(memoryStart, before, img)
    requires P <= memoryStart && memoryStart + |bits| * P <= UINT32
    ensures Frames(map[], supply, img)
  {
    forall k | 0 <= k < |supply| ensures Usable(supply[k], img) {
      assert Outside(FrameOf(memoryStart, pages[k]), img);
    }
  }

  /**
    Frames from the page allocator are what loading a file asks of its supply: all different, none
    holding a part of the file. There are `count` of them unless the high pages ran out.
    */
  method DrawFrames(allocator: PageAllocator.Allocator, count: nat, ghost img: Image) returns (supply: seq<nat>)
    requires allocator.Valid() && FileHeld(allocator.memoryStart, allocator.bits, img)
    modifies allocator
    ensures allocator.Valid() && Frames(map[], supply, img)
    ensures allocator.lowPages <= |old(allocator.bits)|
    ensures |supply| == Least(count, PageAllocator.FreeCount(old(allocator.bits)[allocator.lowPages..]))
  {
    hide Frames, FileHeld, PageAllocator.Owned, PageAllocator.FreeCount;
    var low := allocator.lowPages;
    ghost var pages: seq<nat> := [];
    supply := [];
    while |supply| < count
      invariant allocator.Valid() && |supply| <= count && |allocator.bits| == |old(allocator.bits)|
      invariant Drawn(allocator.memoryStart, low, old(allocator.bits), allocator.bits, pages, supply)
      invariant |supply| + PageAllocator.FreeCount(allocator.bits[low..])
                == PageAllocator.FreeCount(old(allocator.bits)[low..])
      decreases count - |supply|
    {
      ghost var bits := allocator.bits;
      label Before:
      var page := allocator.AllocPageHigh();
      if page == PageAllocator.NULL {
        NoneIsFree(bits, low);
        break;
      }
      ghost var p: nat :| page == allocator.Addr(p) && allocator.Claimed@Before(p, 1)
                          && PageAllocator.LowestFreeRun(bits, p, 1, low, |bits|);
      assert allocator.bits == bits[p := true] && allocator.bits[low..] == bits[low..][p - low := true];
      PageAllocator.FreeCountUpdate(bits[low..], p - low, true);
      DrawnNext(allocator.memoryStart, low, old(allocator.bits), bits, pages, supply, p);
      pages, supply := pages + [p], supply + [page / P];
    }
    DrawnAreFrames(allocator.memoryStart, low, old(allocator.bits), allocator.bits, pages, supply, img);
  }

  lemma NoneIsFree(bits: seq<bool>, low: nat)
    requires low <= |bits| && PageAllocator.NoFreeRun(bits, 1, low, |bits|)
    ensures PageAllocator.FreeCount(bits[low..]) == 0
  {
    forall p | low <= p < |bits| ensures bits[p] {
      assert !PageAllocator.FreeRun(bits, p, 1, low, |bits|);
    }
    NoneToCount(bits[low..]);
  }

  lemma {:induction false} NoneToCount(bits: seq<bool>)
    requires forall p :: 0 <= p < |bits| ==> bits[p]
    ensures PageAllocator.FreeCount(bits) == 0
  {
    if bits != [] {
      NoneToCount(bits[..|bits| - 1]);
    }
  }

  /** The file is still in memory as it was. */
  ghost predicate Kept(mem: seq<byte>, img: Image) {
    |mem| == |img.mem| == UINT32 &&
    forall a :: img.base <= a < img.base + img.size && a < UINT32 ==> mem[a] == img.mem[a]
  }

  /** Every mapped address shows what the first `n` segments put there. */
  ghost predicate Loaded(mem: seq<byte>, pt: PageTable, img: Image, n: nat) {
    forall va: nat :: va / P in pt ==> Shown(mem, pt, va) == Expected(img, n, va)
  }

  /** As `Loaded`, with `done` bytes of segment `n` copied as well. */
  ghost predicate PartlyLoaded(mem: seq<byte>, pt: PageTable, img: Image, n: nat, done: nat) {
    forall va: nat :: va / P in pt ==> Shown(mem, pt, va) == PartlyExpected(img, n, done, va)
  }

  ghost function PartlyExpected(img: Image, n: nat, done: nat, va: nat): byte {
    var s := img.Segment(n);
    if s.vaddr <= va < s.vaddr + done then img.Byte(s.offset + (va - s.vaddr)) else Expected(img, n, va)
  }

  /** The file parts of the first `n` segments lie in mapped pages. */
  ghost predicate Covered(pt: PageTable, img: Image, n: nat) {
    forall i: nat, va: nat :: i < n && img.Segment(i).Covers(va) ==> va / P in pt
  }

  /** A copy into page `v` is seen at its addresses of that page and nowhere else. */
  ghost function ShownAfterCopy(mem: seq<byte>, pt: PageTable, v: nat, off: nat, src: nat, len: nat, va: nat): byte {
    if va / P == v && off <= va % P < off + len then ByteAt(mem, src + (va % P - off)) else Shown(mem, pt, va)
  }

  ghost predicate InSegments(img: Image, n: nat, v: nat) {
    exists i: nat :: i < n && img.Segment(i).HasPage(v)
  }

  /** Exactly the pages of the first `n` segments are mapped. */
  ghost predicate Mapped(pt: PageTable, img: Image, n: nat) {
    forall v: nat :: v in pt <==> InSegments(img, n, v)
  }

  lemma MappedNext(pt: PageTable, pt': PageTable, img: Image, n: nat)
    requires Mapped(pt, img, n)
    requires forall v: nat :: v in pt' <==> v in pt || img.Segment(n).HasPage(v)
    ensures Mapped(pt', img, n + 1)
  {
    hide Image.Segment;
    forall v: nat
      ensures v in pt' <==> InSegments(img, n + 1, v)
    {
      if v in pt {
        var i: nat :| i < n && img.Segment(i).HasPage(v);
        assert i < n + 1;
      } else if img.Segment(n).HasPage(v) {
        assert n < n + 1;
      }
    }
  }

  /** Every address of a segment lies in one of its pages, unless rounding its end up overflows: then
      it has no pages at all. */
  lemma SegmentPages(s: Segment, va: nat)
    requires s.ptype == PT_LOAD && s.vaddr <= va < s.vaddr + s.memsz < UINT32
    ensures s.HasPage(va / P) <==> !s.Wraps()
  {
    if s.Wraps() {
      assert s.EndPage() == 0;
    }
  }

  /** `m` is the highest segment end, or 0 without segments. */
  ghost predicate HighestEnd(img: Image, n: nat, m: nat) {
    (forall i: nat :: i < n && img.Segment(i).ptype == PT_LOAD ==> img.Segment(i).vaddr + img.Segment(i).memsz <= m) &&
    (m == 0 || exists i: nat :: i < n && img.Segment(i).ptype == PT_LOAD
                                && img.Segment(i).vaddr + img.Segment(i).memsz == m)
  }

  lemma CopyShownAt(m0: seq<byte>, m1: seq<byte>, pt: PageTable, supply: seq<nat>, img: Image, v: nat, off: nat,
                    src: nat, len: nat, va: nat)
    requires |m0| == UINT32 && Frames(pt, supply, img) && v in pt && off + len <= P && va / P in pt
    requires Copied(m0, m1, pt[v] * P + off, src, len)
    ensures Shown(m1, pt, va) == ShownAfterCopy(m0, pt, v, off, src, len, va)
  {
    hide Frames;
    var w := va / P;
    FrameFacts(pt, supply, img, w, v, va % P);
    assert m1[pt[w] * P + va % P] == ByteAt(m1, pt[w] * P + va % P);
  }

  /** Byte `k` of the frame of page `w` is in memory, and in no other frame. */
  lemma FrameFacts(pt: PageTable, supply: seq<nat>, img: Image, w: nat, v: nat, k: nat)
    requires Frames(pt, supply, img) && w in pt && v in pt && k < P
    ensures pt[w] * P + k < UINT32 && Usable(pt[v], img)
    ensures w != v ==> pt[w] * P + k < pt[v] * P || pt[v] * P + P <= pt[w] * P + k
  {
    assert Usable(pt[w], img);
  }

  lemma CopyShown(m0: seq<byte>, m1: seq<byte>, pt: PageTable, supply: seq<nat>, img: Image, v: nat, off: nat,
                  src: nat, len: nat)
    requires |m0| == UINT32 && Frames(pt, supply, img) && v in pt && off + len <= P
    requires Copied(m0, m1, pt[v] * P + off, src, len)
    ensures forall va: nat ::
              va / P in pt ==> Shown(m1, pt, va) == ShownAfterCopy(m0, pt, v, off, src, len, va)
    ensures Kept(m0, img) ==> Kept(m1, img)
  {
    forall va: nat | va / P in pt
      ensures Shown(m1, pt, va) == ShownAfterCopy(m0, pt, v, off, src, len, va)
    {
      CopyShownAt(m0, m1, pt, supply, img, v, off, src, len, va);
    }
    assert Usable(pt[v], img);
  }

  lemma MapShown(m0: seq<byte>, m1: seq<byte>, pt: PageTable, pt': PageTable, supply: seq<nat>, img: Image, v: nat)
    requires |m0| == UINT32 && Frames(pt, supply, img) && supply != []
    requires Zeroed(m0, m1, supply[0] * P) && pt' == pt[v := supply[0]]
    ensures Frames(pt', supply[1..], img)
    ensures forall va: nat :: Shown(m1, pt', va) == if va / P == v then 0 else Shown(m0, pt, va)
    ensures Kept(m0, img) ==> Kept(m1, img)
  {
    var f := supply[0];
    assert Usable(f, img) && f in supply;
    assert forall k :: 0 <= k < |supply| - 1 ==> supply[1..][k] == supply[k + 1];
    forall va: nat
      ensures Shown(m1, pt', va) == if va / P == v then 0 else Shown(m0, pt, va)
    {
      if va / P in pt' {
        var a := pt'[va / P] * P + va % P;
        assert Usable(pt'[va / P], img) && a < |m1|;
        assert va / P != v ==> pt[va / P] in pt.Values && pt[va / P] != f;
      }
    }
  }

  /** Mapping a fresh page keeps the picture: nothing was to be seen there. */
  lemma MapKeepsLoaded(m0: seq<byte>, m1: seq<byte>, pt: PageTable, supply: seq<nat>, img: Image, v: nat, n: nat)
    requires |m0| == UINT32 && Frames(pt, supply, img) && supply != [] && v !in pt
    requires Zeroed(m0, m1, supply[0] * P)
    requires Loaded(m0, pt, img, n) && Covered(pt, img, n)
    ensures Loaded(m1, pt[v := supply[0]], img, n) && Covered(pt[v := supply[0]], img, n)
  {
    hide Frames, Zeroed, Image.Segment;
    var pt' := pt[v := supply[0]];
    MapShown(m0, m1, pt, pt', supply, img, v);
    forall va: nat | va / P in pt'
      ensures Shown(m1, pt', va) == Expected(img, n, va)
    {
      if va / P == v {
        UncoveredIsZero(img, n, va);
      } else {
        assert va / P in pt && Shown(m0, pt, va) == Expected(img, n, va);
      }
    }
  }

  lemma CopyKeepsPartlyLoaded(m0: seq<byte>, m1: seq<byte>, pt: PageTable, supply: seq<nat>, img: Image, n: nat,
                              done: nat, v: nat, off: nat, chunk: nat)
    requires |m0| == UINT32 && Frames(pt, supply, img) && v in pt && off + chunk <= P && Kept(m0, img)
    requires img.Segment(n).vaddr + done == v * P + off
    requires img.Segment(n).offset + done + chunk <= img.size
    requires Copied(m0, m1, pt[v] * P + off, img.base + img.Segment(n).offset + done, chunk)
    requires PartlyLoaded(m0, pt, img, n, done)
    ensures PartlyLoaded(m1, pt, img, n, done + chunk) && Kept(m1, img)
  {
    hide Frames, Copied, Expected, Image.Segment;
    var s := img.Segment(n);
    var src := img.base + s.offset + done;
    CopyShown(m0, m1, pt, supply, img, v, off, src, chunk);
    forall va: nat | va / P in pt
      ensures Shown(m1, pt, va) == PartlyExpected(img, n, done + chunk, va)
    {
      assert Shown(m0, pt, va) == PartlyExpected(img, n, done, va);
      if va / P == v && off <= va % P < off + chunk {
        assert va - s.vaddr == done + (va % P - off);
      }
    }
  }

  lemma SegmentDone(mem: seq<byte>, pt: PageTable, img: Image, n: nat)
    requires Covered(pt, img, n)
    requires if img.Segment(n).ptype == PT_LOAD
             then PartlyLoaded(mem, pt, img, n, img.Segment(n).filesz)
             else Loaded(mem, pt, img, n)
    requires forall va: nat :: img.Segment(n).Covers(va) ==> va / P in pt
    ensures Loaded(mem, pt, img, n + 1) && Covered(pt, img, n + 1)
  {
    forall va: nat | va / P in pt
      ensures Shown(mem, pt, va) == Expected(img, n + 1, va)
    {
    }
  }

  lemma NothingCopied(mem: seq<byte>, pt: PageTable, img: Image, n: nat)
    requires Loaded(mem, pt, img, n)
    ensures PartlyLoaded(mem, pt, img, n, 0)
  {
  }

  // ---------------------------------------------------------------------- the loader

  class Loader {
    var mem: seq<byte>
    var pt: PageTable
    var supply: seq<nat>
    const unmappable: set<nat>
    var heapStart: nat

    ghost predicate Sound(img: Image)
      reads this
    {
      |mem| == UINT32 && Frames(pt, supply, img) && Kept(mem, img)
    }

    constructor (mem: seq<byte>, supply: seq<nat>, unmappable: set<nat>)
      requires |mem| == UINT32
      ensures this.mem == mem && pt == map[] && this.supply == supply
    {
      this.mem, this.pt, this.supply, this.unmappable, heapStart := mem, map[], supply, unmappable, 0;
    }

    /** Page by page; fails iff the range leaves the 32-bit physical memory. */
    method MemcpyFromPhys(src: nat, len: nat) returns (ret: int, out: seq<byte>)
      requires |mem| == UINT32
      ensures ret == OK <==> len == 0 || src + len <= UINT32
      ensures ret == OK ==> |out| == len && forall i :: 0 <= i < len ==> out[i] == ByteAt(mem, src + i)
      ensures ret == OK || ret == EFAULT
    {
      out := [];
      var copied := 0;
      while copied < len
        invariant copied == |out| <= len && (copied > 0 ==> src + copied <= UINT32)
        invariant forall i :: 0 <= i < copied ==> out[i] == ByteAt(mem, src + i)
      {
        var cur := src + copied;
        if cur > 0xFFFF_FFFF {
          return EFAULT, [];
        }
        var pageOffset := cur % P;
        var chunk := P - pageOffset;
        if chunk > len - copied {
          chunk := len - copied;
        }
        var pagePaddr := cur - pageOffset;
        out := out + mem[pagePaddr + pageOffset..pagePaddr + pageOffset + chunk];
        copied := copied + chunk;
      }
      return OK, out;
    }

    /** Through a 256-byte buffer, never across a page boundary of either side. The copy is exact unless
        the destination starts inside the source. */
    method MemcpyPhysToPhys(dst: nat, src: nat, len: nat) returns (ret: int)
      requires |mem| == UINT32
      modifies this`mem
      ensures |mem| == UINT32
      ensures ret == OK <==> len == 0 || (src + len <= UINT32 && dst + len <= UINT32)
      ensures ret == OK && (src + len <= dst || dst <= src) ==> Copied(old(mem), mem, dst, src, len)
      ensures ret == OK || ret == EFAULT
    {
      hide Copied, Chunk, Splice;
      var copied := 0;
      NothingIsCopied(mem, dst, src);
      while copied < len
        invariant copied <= len && |mem| == UINT32
        invariant copied > 0 ==> src + copied <= UINT32 && dst + copied <= UINT32
        invariant src + len <= dst || dst <= src ==> Copied(old(mem), mem, dst, src, copied)
      {
        var curSrc, curDst := src + copied, dst + copied;
        if curSrc > 0xFFFF_FFFF || curDst > 0xFFFF_FFFF {
          return EFAULT;
        }
        var chunk := Chunk(curSrc, curDst, len - copied);
        if src + len <= dst || dst <= src {
          CopiedMore(old(mem), mem, dst, src, copied, chunk);
        }
        var buf := mem[curSrc..curSrc + chunk];
        mem := Splice(mem, curDst, buf);
        copied := copied + chunk;
      }
      return OK;
    }

    /** A zeroed frame from the supply, mapped at page `v`. */
    method MapPage(v: nat, ghost img: Image) returns (ret: int)
      requires Sound(img)
      modifies this`mem, this`pt, this`supply
      ensures ret == OK <==> old(supply) != [] && v !in unmappable
      ensures ret == OK ==> |old(supply)| > 0 && Sound(img) && supply == old(supply)[1..]
                            && pt == old(pt)[v := old(supply)[0]] && Zeroed(old(mem), mem, old(supply)[0] * P)
      ensures ret != OK ==> ret == ENOMEM && unchanged(this)
    {
      if supply == [] {
        return ENOMEM;
      }
      var page := supply[0];
      if v in unmappable {
        return ENOMEM;
      }
      assert Usable(page, img);
      pt := pt[v := page];
      var zeros := seq(P, _ => 0);
      mem := Splice(mem, page * P, zeros);
      assert mem == old(mem)[..page * P] + zeros + old(mem)[page * P + P..];
      MapShown(old(mem), mem, old(pt), pt, supply, img, v);
      supply := supply[1..];
      return OK;
    }

    /** Maps the pages from `pageStart` to `pageEnd` that are not mapped yet. */
    method MapPages(pageStart: nat, pageEnd: nat, ghost img: Image, ghost n: nat) returns (ret: int)
      requires Sound(img) && Loaded(mem, pt, img, n) && Covered(pt, img, n)
      requires pageStart % P == 0 && pageEnd % P == 0
      modifies this`mem, this`pt, this`supply
      ensures ret == OK ==> Sound(img) && Loaded(mem, pt, img, n) && Covered(pt, img, n)
      ensures ret == OK ==> forall v: nat :: v in pt <==> v in old(pt) || pageStart / P <= v < pageEnd / P
      ensures ret != OK ==> ret == ENOMEM && (supply == [] || unmappable != {})
    {
      hide Frames, Kept, Loaded, Covered, Zeroed;
      var vaddr := pageStart;
      while vaddr < pageEnd
        invariant vaddr % P == 0 && (vaddr == pageStart || vaddr <= pageEnd)
        invariant Sound(img) && Loaded(mem, pt, img, n) && Covered(pt, img, n)
        invariant forall v: nat :: v in pt <==> v in old(pt) || pageStart / P <= v < vaddr / P
      {
        if vaddr / P !in pt {
          ghost var before, table, frames := mem, pt, supply;
          ret := MapPage(vaddr / P, img);
          if ret != OK {
            return;
          }
          MapKeepsLoaded(before, mem, table, frames, img, vaddr / P, n);
        }
        vaddr := vaddr + P;
      }
      return OK;
    }

    /** Copies the file part of segment `n`, page by page. */
    method CopySegment(base: nat, s: Segment, ghost img: Image, ghost n: nat) returns (ret: int)
      requires Sound(img) && Loaded(mem, pt, img, n) && base == img.base
      requires s == img.Segment(n) && s.offset + s.filesz <= img.size
      modifies this`mem
      ensures ret == OK ==> Sound(img) && PartlyLoaded(mem, pt, img, n, s.filesz)
      ensures ret == OK ==> forall va: nat :: s.vaddr <= va < s.vaddr + s.filesz ==> va / P in pt
      ensures ret != OK ==> ret == EFAULT
      ensures ret != OK ==> img.base + img.size > UINT32
                            || exists va: nat :: s.vaddr <= va < s.vaddr + s.filesz && va / P !in pt
    {
      hide Frames, Kept, Loaded, PartlyLoaded, Copied, Image.Segment;
      NothingCopied(mem, pt, img, n);
      var copied := 0;
      while copied < s.filesz
        invariant copied <= s.filesz
        invariant Sound(img) && PartlyLoaded(mem, pt, img, n, copied)
        invariant forall va: nat :: s.vaddr <= va < s.vaddr + copied ==> va / P in pt
      {
        var pageVaddr, pageOffset := (s.vaddr + copied) / P, (s.vaddr + copied) % P;
        var chunk := P - pageOffset;
        if copied + chunk > s.filesz {
          chunk := s.filesz - copied;
        }
        if pageVaddr !in pt {
          return EFAULT;
        }
        var dst, src := pt[pageVaddr] * P + pageOffset, base + s.offset + copied;
        FrameFacts(pt, supply, img, pageVaddr, pageVaddr, P - 1);
        ghost var before := mem;
        ret := MemcpyPhysToPhys(dst, src, chunk);
        if ret != OK {
          return;
        }
        CopyKeepsPartlyLoaded(before, mem, pt, supply, img, n, copied, pageVaddr, pageOffset, chunk);
        ChunkInPage(s.vaddr + copied, chunk);
        copied := copied + chunk;
      }
      return OK;
    }

    /** The first `n` segments are in place. */
    ghost predicate Progress(img: Image, n: nat)
      reads this
    {
      Sound(img) && Loaded(mem, pt, img, n) && Covered(pt, img, n) && Mapped(pt, img, n)
    }

    method LoadSegment(base: nat, size: nat, s: Segment, ghost img: Image, ghost n: nat) returns (ret: int)
      requires Progress(img, n) && base == img.base && size == img.size && s == img.Segment(n)
      requires s.vaddr < UINT32 && s.memsz < UINT32
      modifies this`mem, this`pt, this`supply
      ensures ret == OK ==> s.Ok(size) && Progress(img, n + 1)
      ensures ret == EINVAL ==> !s.Ok(size)
      ensures ret == EFAULT ==> base + size > UINT32 || s.Wraps()
      ensures ret == ENOMEM ==> supply == [] || unmappable != {}
      ensures ret in {OK, EINVAL, EFAULT, ENOMEM}
    {
      hide Frames, Kept, Loaded, PartlyLoaded, Covered, Mapped, Image.Segment, AlignUp;
      ghost var table := pt;
      if s.ptype != PT_LOAD {
        SegmentDone(mem, pt, img, n);
        MappedNext(table, pt, img, n);
        return OK;
      }
      if s.filesz > s.memsz || s.offset + s.filesz > size {
        return EINVAL;
      }
      var vaddrEnd := (s.vaddr + s.memsz) % UINT32;
      if vaddrEnd < s.vaddr {
        return EINVAL;
      }
      ret := MapPages(s.vaddr / P * P, AlignUp(vaddrEnd), img, n);
      if ret != OK {
        return;
      }
      ret := CopySegment(base, s, img, n);
      if ret != OK {
        return;
      }
      SegmentDone(mem, pt, img, n);
      MappedNext(table, pt, img, n);
    }

    /** Sixteen zeroed pages below the top of the user space; all, or none and the frames go back. */
    method MapStack(ghost img: Image) returns (ret: int)
      requires Sound(img)
      modifies this`mem, this`pt, this`supply
      ensures ret == OK ==> Sound(img)
      ensures ret == OK ==> forall v: nat :: v in pt <==> v in old(pt) || StackPage(v)
      ensures ret == OK ==> forall va: nat ::
                Shown(mem, pt, va) == if StackPage(va / P) then 0 else Shown(old(mem), old(pt), va)
      ensures ret == OK <==> |old(supply)| >= STACK_PAGES && forall v: nat :: StackPage(v) ==> v !in unmappable
      ensures ret != OK ==> ret == ENOMEM && supply == old(supply)
      ensures ret != OK ==> forall v: nat :: v in pt ==> v in old(pt)
      ensures ret != OK ==> forall va: nat :: !StackPage(va / P) ==>
                (va / P in pt <==> va / P in old(pt)) && Shown(mem, pt, va) == Shown(old(mem), old(pt), va)
    {
      hide Frames, Kept, Zeroed, Shown;
      var stackMem := [];
      for i := 1 to STACK_PAGES + 1
        invariant |stackMem| == i - 1 && Sound(img) && stackMem + supply == old(supply)
        invariant forall v: nat :: StackTop() - i < v < StackTop() ==> v !in unmappable
        invariant forall v: nat :: v in pt <==> v in old(pt) || StackTop() - i < v < StackTop()
        invariant forall va: nat ::
                    Shown(mem, pt, va) == if StackTop() - i < va / P < StackTop() then 0
                      else Shown(old(mem), old(pt), va)
      {
        ghost var frames := supply;
        var page;
        ret, page := MapZeroed(StackTop() - i, img);
        if ret != OK {
          assert StackPage(StackTop() - i);
          UndoStack(stackMem);
          return;
        }
        assert [page] + supply == frames;
        stackMem := stackMem + [page];
      }
      return OK;
    }

    /** Maps a zeroed page and returns its frame. */
    method MapZeroed(v: nat, ghost img: Image) returns (ret: int, page: nat)
      requires Sound(img)
      modifies this`mem, this`pt, this`supply
      ensures ret == OK <==> old(supply) != [] && v !in unmappable
      ensures ret == OK ==> Sound(img) && |old(supply)| > 0 && page == old(supply)[0] && supply == old(supply)[1..]
      ensures ret == OK ==> forall w: nat :: w in pt <==> w in old(pt) || w == v
      ensures ret == OK ==> forall va: nat ::
                Shown(mem, pt, va) == if va / P == v then 0 else Shown(old(mem), old(pt), va)
      ensures ret != OK ==> ret == ENOMEM && unchanged(this)
    {
      hide Frames, Kept, Zeroed, Shown;
      page := if supply != [] then supply[0] else 0;
      ret := MapPage(v, img);
      if ret == OK {
        MapShown(old(mem), mem, old(pt), pt, old(supply), img, v);
      }
    }

    method UndoStack(stackMem: seq<nat>)
      requires |stackMem| < STACK_PAGES
      modifies this`pt, this`supply
      ensures supply == stackMem + old(supply)
      ensures forall v: nat :: v in pt <==> v in old(pt) && !(StackTop() - |stackMem| <= v < StackTop())
      ensures forall va: nat :: !StackPage(va / P) ==> Shown(mem, pt, va) == Shown(mem, old(pt), va)
    {
      for i := 1 to |stackMem| + 1
        invariant supply == old(supply) && forall v <- pt :: v in old(pt) && pt[v] == old(pt)[v]
        invariant forall v: nat :: v in pt <==> v in old(pt) && !(StackTop() - i < v < StackTop())
      {
        pt := pt - {StackTop() - i};
      }
      supply := stackMem + supply;
    }

    /** Reads program header `i`. */
    method ReadPhdr(base: nat, phoff: nat, i: nat, ghost img: Image) returns (ret: int, s: Segment)
      requires Sound(img) && base == img.base && phoff == img.Word(28) && i < img.PhNum() && img.HeaderOk()
      ensures ret == OK ==> s == img.Segment(i) && s.vaddr < UINT32 && s.memsz < UINT32
      ensures ret != OK ==> ret == EFAULT && img.base + img.size > UINT32
    {
      hide Frames, RawWord, Image.Word, Image.Byte, Image.HeaderOk, Image.PhNum;
      var at := phoff + i * PHDR_SIZE;
      PhdrInFile(img, i);
      var raw;
      ret, raw := MemcpyFromPhys(base + at, PHDR_SIZE);
      if ret != OK {
        return ret, Phdr(0, 0, 0, 0, 0);
      }
      RawIsImage(mem, img, at, raw);
      RawWordIs(img, at, raw, 0);
      RawWordIs(img, at, raw, 4);
      RawWordIs(img, at, raw, 8);
      RawWordIs(img, at, raw, 16);
      RawWordIs(img, at, raw, 20);
      s := Phdr(RawWord(raw, 0), RawWord(raw, 4), RawWord(raw, 8), RawWord(raw, 16), RawWord(raw, 20));
    }

    /** Reads and checks the file header. */
    method ReadHeader(base: nat, size: nat, ghost img: Image) returns (ret: int, raw: seq<byte>)
      requires Sound(img) && base == img.base && size == img.size
      ensures ret == OK ==> img.HeaderOk() && base != 0
      ensures ret == OK ==> |raw| == EHDR_SIZE && RawWord(raw, 24) == img.Word(24) && RawWord(raw, 28) == img.Word(28)
                            && RawHalf(raw, 44) == img.PhNum()
      ensures ret == EINVAL ==> !img.HeaderOk() || base == 0
      ensures ret == EFAULT ==> img.base + img.size > UINT32
      ensures ret in {OK, EINVAL, EFAULT}
    {
      hide Frames, RawWord, Image.Word, Image.Byte, Image.Half, RawHalf;
      if base == 0 || size == 0 || size < EHDR_SIZE {
        return EINVAL, [];
      }
      ret, raw := MemcpyFromPhys(base, EHDR_SIZE);
      if ret != OK {
        return;
      }
      RawIsImage(mem, img, 0, raw);
      RawHeaderIs(img, raw);
      if !(raw[0] == 0x7F && raw[1] == 0x45 && raw[2] == 0x4C && raw[3] == 0x46)
         || raw[4] != 1 || raw[5] != 1 || RawHalf(raw, 16) != 2 || RawHalf(raw, 18) != 3 || RawWord(raw, 20) != 1 {
        return EINVAL, raw;
      }
      if RawHalf(raw, 42) != PHDR_SIZE {
        return EINVAL, raw;
      }
      if RawWord(raw, 28) + RawHalf(raw, 44) * RawHalf(raw, 42) > size {
        return EINVAL, raw;
      }
    }

    /** All the segments, in file order. */
    method LoadSegments(base: nat, size: nat, phoff: nat, phnum: nat, ghost img: Image)
      returns (ret: int, maxSegEnd: nat)
      requires Sound(img) && pt == map[] && base == img.base && size == img.size
      requires img.HeaderOk() && phoff == img.Word(28) && phnum == img.PhNum()
      modifies this`mem, this`pt, this`supply
      ensures ret == OK ==> Progress(img, phnum) && HighestEnd(img, phnum, maxSegEnd)
      ensures ret == OK ==> forall i: nat :: i < phnum ==> img.Segment(i).Ok(size)
      ensures ret == EINVAL ==> exists i: nat :: i < phnum && !img.Segment(i).Ok(size)
      ensures ret == EFAULT ==> base + size > UINT32 || exists i: nat :: i < phnum && img.Segment(i).Wraps()
      ensures ret == ENOMEM ==> supply == [] || unmappable != {}
      ensures ret in {OK, EINVAL, EFAULT, ENOMEM}
    {
      hide Frames, Kept, Loaded, Covered, Mapped, Image.Segment, Image.HeaderOk, Image.Word, Image.PhNum, Segment.Ok;
      maxSegEnd := 0;
      NothingLoaded(mem, img);
      for i := 0 to phnum
        invariant Progress(img, i) && HighestEnd(img, i, maxSegEnd)
        invariant forall j: nat :: j < i ==> img.Segment(j).Ok(size)
      {
        var s;
        ret, s := ReadPhdr(base, phoff, i, img);
        if ret != OK {
          return;
        }
        ret := LoadSegment(base, size, s, img, i);
        if ret != OK {
          return;
        }
        HighestEndNext(img, i, maxSegEnd);
        if s.ptype == PT_LOAD && s.vaddr + s.memsz > maxSegEnd {
          maxSegEnd := s.vaddr + s.memsz;
        }
      }
      ret := OK;
    }

    /**
      Loads the file at `base` into an empty address space. On success every mapped address outside
      the stack shows the byte of the last segment whose file part covers it, or zero; the mapped
      pages are exactly the pages of the segments and the stack.
      */
    method LoadElf(base: nat, size: nat, ghost img: Image) returns (ret: int, entry: nat)
      requires |mem| == UINT32 && img == Image(mem, base, size) && pt == map[] && Frames(pt, supply, img)
      modifies this
      ensures ret == OK ==> img.Accepted() && entry == img.Word(24) && Sound(img)
      ensures ret == OK ==> forall va: nat :: va / P in pt ==>
                Shown(mem, pt, va) == if StackPage(va / P) then 0 else Expected(img, img.PhNum(), va)
      ensures ret == OK ==> forall v: nat :: v in pt <==> StackPage(v) || InSegments(img, img.PhNum(), v)
      ensures ret == OK ==> exists m: nat :: HighestEnd(img, img.PhNum(), m) && heapStart == AlignUp(m)
      ensures ret == EINVAL ==> !img.Accepted()
      ensures ret == EFAULT ==> base + size > UINT32 || exists i: nat :: i < img.PhNum() && img.Segment(i).Wraps()
      ensures ret == ENOMEM ==> |supply| < STACK_PAGES || unmappable != {}
      ensures ret in {OK, EINVAL, EFAULT, ENOMEM}
    {
      hide Frames, Kept, Covered, Expected, Image.Segment, Image.HeaderOk, Image.Word, Image.PhNum, Segment.Ok,
           RawWord, RawHalf;
      hide Shown, AlignUp, HighestEnd;
      entry := 0;
      assert Sound(img) by { ImageIsKept(img); }
      var raw;
      ret, raw := ReadHeader(base, size, img);
      if ret != OK {
        return;
      }
      var maxSegEnd;
      ret, maxSegEnd := LoadSegments(base, size, RawWord(raw, 28), RawHalf(raw, 44), img);
      if ret != OK {
        return;
      }
      heapStart := AlignUp(maxSegEnd);
      ret := MapStack(img);
      if ret != OK {
        return;
      }
      entry := RawWord(raw, 24);
    }
  }

  lemma ImageIsKept(img: Image)
    requires |img.mem| == UINT32
    ensures Kept(img.mem, img)
  {
  }

  lemma NothingLoaded(mem: seq<byte>, img: Image)
    ensures Loaded(mem, map[], img, 0) && Covered(map[], img, 0) && Mapped(map[], img, 0)
  {
  }

  lemma HighestEndNext(img: Image, n: nat, m: nat)
    requires HighestEnd(img, n, m)
    ensures
      var s := img.Segment(n);
      HighestEnd(img, n + 1, if s.ptype == PT_LOAD && s.vaddr + s.memsz > m then s.vaddr + s.memsz else m)
  {
    hide Image.Segment;
    var s := img.Segment(n);
    if m > 0 {
      var i: nat :| i < n && img.Segment(i).ptype == PT_LOAD && img.Segment(i).vaddr + img.Segment(i).memsz == m;
      assert i < n + 1;
    }
    assert n < n + 1;
  }

  lemma RawHeaderIs(img: Image, raw: seq<byte>)
    requires |raw| == EHDR_SIZE && forall i: nat :: i < |raw| ==> raw[i] == img.Byte(0 + i)
    ensures forall k: nat :: k < EHDR_SIZE ==> raw[k] == img.Byte(k)
    ensures forall k: nat :: k + 2 <= EHDR_SIZE ==> RawHalf(raw, k) == img.Half(k)
    ensures forall k: nat :: k + 4 <= EHDR_SIZE ==> RawWord(raw, k) == img.Word(k)
  {
    hide Word4, Image.Byte;
    forall k: nat | k + 4 <= EHDR_SIZE
      ensures RawWord(raw, k) == img.Word(k)
    {
      RawWordIs(img, 0, raw, k);
    }
  }

  function StackTop(): nat { USER_STACK_TOP / P }

  predicate StackPage(v: nat) {
    StackTop() - STACK_PAGES <= v < StackTop()
  }

  function RawHalf(raw: seq<byte>, k: nat): nat
    requires k + 2 <= |raw|
  {
    raw[k] as int + 256 * raw[k + 1] as int
  }

  function RawWord(raw: seq<byte>, k: nat): nat
    requires k + 4 <= |raw|
  {
    Word4([raw[k], raw[k + 1], raw[k + 2], raw[k + 3]])
  }

  lemma RawWordIs(img: Image, at: nat, raw: seq<byte>, k: nat)
    requires k + 4 <= |raw| && forall i: nat :: i < |raw| ==> raw[i] == img.Byte(at + i)
    ensures RawWord(raw, k) == img.Word(at + k)
  {
    hide Word4, Image.Byte;
    assert raw[k + 1] == img.Byte(at + (k + 1)) && raw[k + 2] == img.Byte(at + (k + 2))
           && raw[k + 3] == img.Byte(at + (k + 3));
  }

  lemma PhdrInFile(img: Image, i: nat)
    requires img.HeaderOk() && i < img.PhNum()
    ensures img.Word(28) + i * PHDR_SIZE + PHDR_SIZE <= img.size
  {
    hide Image.Word, Image.Byte, Image.Half;
  }

  /** Bytes read from the file region are the bytes of the file. */
  lemma RawIsImage(mem: seq<byte>, img: Image, at: nat, raw: seq<byte>)
    requires Kept(mem, img) && at + |raw| <= img.size
    requires forall i :: 0 <= i < |raw| ==> raw[i] == ByteAt(mem, img.base + at + i)
    ensures forall i: nat :: i < |raw| ==> raw[i] == img.Byte(at + i)
  {
  }

  lemma ChunkInPage(start: nat, chunk: nat)
    requires start % P + chunk <= P
    ensures forall va: nat :: start <= va < start + chunk ==> va / P == start / P
  {
  }

  function Least(a: nat, b: nat): nat { if a > b then b else a }

  /** As much as fits the buffer and the current page on both sides. */
  function Chunk(src: nat, dst: nat, remain: nat): (chunk: nat)
    requires remain > 0
    ensures 0 < chunk <= remain
    ensures src < UINT32 ==> src + chunk <= UINT32
    ensures dst < UINT32 ==> dst + chunk <= UINT32
  {
    var srcOff, dstOff := src % P, dst % P;
    Least(Least(Least(remain, P - srcOff), P - dstOff), BUF_SIZE)
  }

  lemma NothingIsCopied(mem: seq<byte>, dst: nat, src: nat)
    ensures Copied(mem, mem, dst, src, 0)
  {
  }
}
