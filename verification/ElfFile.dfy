/**
  The headers of an ELF32 file, written out byte by byte as the System V ABI lays them out, and what
  the loader reads when it meets them.
  */
module ElfFile {
  import opened Bytes
  import opened ElfLoader

  /** Least significant byte first. */
  function Bytes2(n: nat): (s: seq<byte>)
    requires n < 0x1_0000
    ensures |s| == 2
  {
    [n % 256, n / 256]
  }

  datatype FileHeader = FileHeader(
    ident: seq<byte>, kind: nat, machine: nat, version: nat, entry: nat, phoff: nat, shoff: nat, flags: nat,
    ehsize: nat, phentsize: nat, phnum: nat, shentsize: nat, shnum: nat, shstrndx: nat)
  {
    predicate InRange() {
      && |ident| == 16 && kind < 0x1_0000 && machine < 0x1_0000 && ehsize < 0x1_0000 && phentsize < 0x1_0000
      && phnum < 0x1_0000 && shentsize < 0x1_0000 && shnum < 0x1_0000 && shstrndx < 0x1_0000
      && version < UINT32 && entry < UINT32 && phoff < UINT32 && shoff < UINT32 && flags < UINT32
    }

    function Written(): (s: seq<byte>)
      requires InRange()
      ensures |s| == 52
    {
      ident + Bytes2(kind) + Bytes2(machine) + Bytes4(version) + Bytes4(entry) + Bytes4(phoff) + Bytes4(shoff)
      + Bytes4(flags) + Bytes2(ehsize) + Bytes2(phentsize) + Bytes2(phnum) + Bytes2(shentsize) + Bytes2(shnum)
      + Bytes2(shstrndx)
    }
  }

  datatype ProgramHeader = ProgramHeader(
    kind: nat, offset: nat, vaddr: nat, paddr: nat, filesz: nat, memsz: nat, flags: nat, align: nat)
  {
    predicate InRange() {
      && kind < UINT32 && offset < UINT32 && vaddr < UINT32 && paddr < UINT32
      && filesz < UINT32 && memsz < UINT32 && flags < UINT32 && align < UINT32
    }

    function Written(): (s: seq<byte>)
      requires InRange()
      ensures |s| == 32
    {
      Bytes4(kind) + Bytes4(offset) + Bytes4(vaddr) + Bytes4(paddr) + Bytes4(filesz) + Bytes4(memsz) + Bytes4(flags)
      + Bytes4(align)
    }
  }

  /** The file holds these bytes at offset `at`. */
  ghost predicate Holds(img: Image, at: nat, bytes: seq<byte>) {
    forall k: nat :: k < |bytes| ==> img.Byte(at + k) == bytes[k]
  }

  lemma HoldsPart(img: Image, at: nat, before: seq<byte>, part: seq<byte>, rest: seq<byte>)
    requires Holds(img, at, before + part + rest)
    ensures Holds(img, at + |before|, part)
  {
    hide Image.Byte;
    var all := before + part + rest;
    forall k: nat | k < |part| ensures img.Byte(at + |before| + k) == part[k] {
      assert all[|before| + k] == part[k];
      assert img.Byte(at + (|before| + k)) == all[|before| + k];
    }
  }

  lemma WordReads(img: Image, at: nat, n: nat)
    requires n < UINT32 && Holds(img, at, Bytes4(n))
    ensures img.Word(at) == n
  {
    hide Image.Byte, Bytes4, Word4;
    var s := Bytes4(n);
    assert img.Byte(at + 0) == s[0] && img.Byte(at + 1) == s[1] && img.Byte(at + 2) == s[2] && img.Byte(at + 3) == s[3];
    assert [img.Byte(at), img.Byte(at + 1), img.Byte(at + 2), img.Byte(at + 3)] == s;
    WordRoundTrip(n);
  }

  lemma HalfReads(img: Image, at: nat, n: nat)
    requires n < 0x1_0000 && Holds(img, at, Bytes2(n))
    ensures img.Half(at) == n
  {
    hide Image.Byte;
    assert img.Byte(at + 0) == Bytes2(n)[0] && img.Byte(at + 1) == Bytes2(n)[1];
  }

  /** The loader reads a program header as it was written. */
  lemma SegmentReads(img: Image, i: nat, p: ProgramHeader)
    requires p.InRange() && Holds(img, img.Word(28) + 32 * i, p.Written())
    ensures img.Segment(i) == Phdr(p.kind, p.offset, p.vaddr, p.filesz, p.memsz)
  {
    hide Image.Byte, Bytes4, Holds, Image.Word;
    var at, s := img.Word(28) + 32 * i, p.Written();
    WordAt(img, at, s, 0, p.kind);
    WordAt(img, at, s, 4, p.offset);
    WordAt(img, at, s, 8, p.vaddr);
    WordAt(img, at, s, 16, p.filesz);
    WordAt(img, at, s, 20, p.memsz);
  }

  lemma WordAt(img: Image, at: nat, s: seq<byte>, k: nat, n: nat)
    requires Holds(img, at, s) && k + 4 <= |s| && n < UINT32 && s[k..k + 4] == Bytes4(n)
    ensures img.Word(at + k) == n
  {
    hide Image.Byte, Bytes4, Image.Word;
    assert s == s[..k] + s[k..k + 4] + s[k + 4..];
    HoldsPart(img, at, s[..k], s[k..k + 4], s[k + 4..]);
    WordReads(img, at + k, n);
  }

  lemma HalfAt(img: Image, at: nat, s: seq<byte>, k: nat, n: nat)
    requires Holds(img, at, s) && k + 2 <= |s| && n < 0x1_0000 && s[k..k + 2] == Bytes2(n)
    ensures img.Half(at + k) == n
  {
    hide Image.Byte, Bytes2, Image.Half;
    assert s == s[..k] + s[k..k + 2] + s[k + 2..];
    HoldsPart(img, at, s[..k], s[k..k + 2], s[k + 2..]);
    HalfReads(img, at + k, n);
  }

  /** The loader reads a file header as it was written, and accepts it iff it is that of a little-endian
      32-bit executable for the 80386 whose program headers lie inside the file. */
  lemma HeaderReads(img: Image, h: FileHeader)
    requires h.InRange() && Holds(img, 0, h.Written())
    ensures img.Word(24) == h.entry && img.Word(28) == h.phoff && img.PhNum() == h.phnum
    ensures img.HeaderOk() <==>
            && img.size >= 52 && h.ident[..6] == [0x7F, 0x45, 0x4C, 0x46, 1, 1]
            && h.kind == 2 && h.machine == 3 && h.version == 1 && h.phentsize == 32
            && h.phoff + 32 * h.phnum <= img.size
  {
    hide Image.Byte, Bytes4, Bytes2, Holds, Image.Word, Image.Half;
    var s := h.Written();
    WordAt(img, 0, s, 20, h.version);
    WordAt(img, 0, s, 24, h.entry);
    WordAt(img, 0, s, 28, h.phoff);
    HalfAt(img, 0, s, 16, h.kind);
    HalfAt(img, 0, s, 18, h.machine);
    HalfAt(img, 0, s, 42, h.phentsize);
    HalfAt(img, 0, s, 44, h.phnum);
    IdentReads(img, h);
  }

  lemma IdentReads(img: Image, h: FileHeader)
    requires h.InRange() && Holds(img, 0, h.Written())
    ensures forall k: nat :: k < 16 ==> img.Byte(k) == h.ident[k]
  {
    hide Image.Byte;
    forall k: nat | k < 16 ensures img.Byte(k) == h.ident[k] {
      assert img.Byte(0 + k) == h.Written()[k];
    }
  }

  // ------------------------------------------------------------------ what an accepted file leads to

  /** Every byte the loader copies for an accepted segment is one of the file, and goes to a 32-bit address. */
  lemma CopiesStayInFile(s: Segment, size: nat, va: nat)
    requires s.Ok(size) && s.Covers(va)
    ensures s.offset + (va - s.vaddr) < size && va < 0x1_0000_0000 && s.vaddr + s.memsz < 0x1_0000_0000
  {
  }

  /** The stack is the 64 KiB below the last page of user space. */
  lemma StackAddresses(va: nat)
    ensures StackPage(va / 4096) <==> 0xBFFE_F000 <= va < 0xBFFF_F000
  {
  }
}
