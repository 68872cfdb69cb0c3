/**
  The kernel log: variable-length records in a wrapping byte ring, oldest records evicted first.

  The ring is shown to hold, byte for byte, the encodings of the most recent log entries, so that
  logging and reading are a bounded queue of numbered entries.
  */
module Kmsg {

  import opened Bytes

  const KMSG_BUF_SIZE := 16384
  const KMSG_MAX_LINE := 256
  const HEADER_SIZE := 12

  // ------------------------------------------------------------------ records

  datatype Entry = Entry(seqno: nat, timestamp: nat, level: nat, facility: nat, text: seq<byte>)

  predicate Storable(e: Entry) {
    e.seqno < UINT32 && e.timestamp < UINT32 && e.level < 256 && e.facility < 256 && |e.text| <= KMSG_MAX_LINE
  }

  /** The fixed part of a record, as read back from the ring. */
  datatype Header = Header(seqno: nat, timestamp: nat, level: nat, facility: nat, len: nat)

  function EncodeHeader(h: Header): (s: seq<byte>)
    requires h.seqno < UINT32 && h.timestamp < UINT32 && h.level < 256 && h.facility < 256 && h.len < 65536
    ensures |s| == HEADER_SIZE
  {
    Bytes4(h.seqno) + Bytes4(h.timestamp) + [h.level, h.facility, h.len % 256, h.len / 256]
  }

  function DecodeHeader(s: seq<byte>): Header
    requires |s| == HEADER_SIZE
  {
    Header(Word4(s[0..4]), Word4(s[4..8]), s[8], s[9], s[10] as int + 256 * s[11] as int)
  }

  function HeaderOf(e: Entry): Header {
    Header(e.seqno, e.timestamp, e.level, e.facility, |e.text|)
  }

  lemma HeaderRoundTrip(e: Entry)
    requires Storable(e)
    ensures DecodeHeader(EncodeHeader(HeaderOf(e))) == HeaderOf(e)
  {
    var s := EncodeHeader(HeaderOf(e));
    assert s[0..4] == Bytes4(e.seqno) && s[4..8] == Bytes4(e.timestamp);
    WordRoundTrip(e.seqno);
    WordRoundTrip(e.timestamp);
  }

  function EntrySize(len: nat): nat {
    HEADER_SIZE + len + 1
  }

  function Encode(e: Entry): (s: seq<byte>)
    requires Storable(e)
    ensures |s| == EntrySize(|e.text|)
  {
    EncodeHeader(HeaderOf(e)) + e.text + [0]
  }

  /** The bytes of a record, as the C structure lays them out: sequence number and time, least significant
      byte first, level, facility, length, then the text and a terminator. */
  lemma RecordLayout(e: Entry)
    requires Storable(e)
    ensures var s := Encode(e);
            && Word4(s[0..4]) == e.seqno && Word4(s[4..8]) == e.timestamp
            && s[8] == e.level && s[9] == e.facility && s[10] as int + 256 * s[11] as int == |e.text|
            && s[12..12 + |e.text|] == e.text && s[12 + |e.text|] == 0 && |s| == 13 + |e.text|
  {
    WordRoundTrip(e.seqno);
    WordRoundTrip(e.timestamp);
    var s := Encode(e);
    assert s[0..4] == Bytes4(e.seqno) && s[4..8] == Bytes4(e.timestamp);
  }

  ghost predicate AllStorable(es: seq<Entry>) {
    forall i :: 0 <= i < |es| ==> Storable(es[i])
  }

  function EncodeAll(es: seq<Entry>): seq<byte>
    requires AllStorable(es)
  {
    if es == [] then [] else Encode(es[0]) + EncodeAll(es[1..])
  }

  lemma {:induction false} EncodeAllAppend(es: seq<Entry>, e: Entry)
    requires AllStorable(es) && Storable(e)
    ensures AllStorable(es + [e]) && EncodeAll(es + [e]) == EncodeAll(es) + Encode(e)
  {
    if es != [] {
      assert (es + [e])[1..] == es[1..] + [e];
      EncodeAllAppend(es[1..], e);
    }
  }

  ghost function Size(es: seq<Entry>): nat
    requires AllStorable(es)
  {
    |EncodeAll(es)|
  }

  // ----------------------------------------------------------------- the ring

  function At(b: seq<byte>, offset: nat, i: nat): byte
    requires |b| == KMSG_BUF_SIZE
  {
    b[(offset + i) % KMSG_BUF_SIZE]
  }

  /** `n` bytes of the ring from `offset` on. */
  function Slice(b: seq<byte>, offset: nat, n: nat): (s: seq<byte>)
    requires |b| == KMSG_BUF_SIZE
    ensures |s| == n
  {
    seq(n, i requires 0 <= i => At(b, offset, i))
  }

  lemma SliceOfSlice(b: seq<byte>, offset: nat, n: nat, from: nat, len: nat)
    requires |b| == KMSG_BUF_SIZE && from + len <= n
    ensures Slice(b, (offset + from) % KMSG_BUF_SIZE, len) == Slice(b, offset, n)[from..from + len]
  {
    var start := (offset + from) % KMSG_BUF_SIZE;
    forall i: nat | i < len ensures At(b, start, i) == At(b, offset, from + i) {
    }
  }

  lemma AddWrapped(a: nat, b: nat, c: nat)
    requires a == b % KMSG_BUF_SIZE
    ensures (a + c) % KMSG_BUF_SIZE == (b + c) % KMSG_BUF_SIZE
  {
  }

  lemma RecordParts(e: Entry, rest: seq<byte>)
    requires Storable(e)
    ensures var all := Encode(e) + rest;
            && all[0..HEADER_SIZE] == EncodeHeader(HeaderOf(e))
            && all[HEADER_SIZE..HEADER_SIZE + |e.text|] == e.text
            && all[EntrySize(|e.text|)..EntrySize(|e.text|) + |rest|] == rest
  {
    hide EncodeHeader;
  }

  /** A ring that holds records holds the first one at its start and the rest after it. */
  lemma FirstRecord(b: seq<byte>, offset: nat, es: seq<Entry>)
    requires |b| == KMSG_BUF_SIZE && AllStorable(es) && es != [] && offset < KMSG_BUF_SIZE
    requires Slice(b, offset, Size(es)) == EncodeAll(es)
    ensures Size(es) == EntrySize(|es[0].text|) + Size(es[1..])
    ensures DecodeHeader(Slice(b, offset, HEADER_SIZE)) == HeaderOf(es[0])
    ensures Slice(b, (offset + HEADER_SIZE) % KMSG_BUF_SIZE, |es[0].text|) == es[0].text
    ensures Slice(b, (offset + EntrySize(|es[0].text|)) % KMSG_BUF_SIZE, Size(es[1..])) == EncodeAll(es[1..])
  {
    hide EncodeHeader, DecodeHeader, Slice, Encode;
    var e, rest := es[0], EncodeAll(es[1..]);
    RecordParts(e, rest);
    HeaderRoundTrip(e);
    SliceOfSlice(b, offset, Size(es), 0, HEADER_SIZE);
    SliceOfSlice(b, offset, Size(es), HEADER_SIZE, |e.text|);
    SliceOfSlice(b, offset, Size(es), EntrySize(|e.text|), |rest|);
  }

  lemma SliceExtends(b: seq<byte>, offset: nat, n: nat, v: byte)
    requires |b| == KMSG_BUF_SIZE && n < KMSG_BUF_SIZE && offset < KMSG_BUF_SIZE
    ensures Slice(b[(offset + n) % KMSG_BUF_SIZE := v], offset, n + 1) == Slice(b, offset, n) + [v]
  {
    var c := b[(offset + n) % KMSG_BUF_SIZE := v];
    forall i: nat | i < n ensures At(c, offset, i) == At(b, offset, i) {
      assert (offset + i) % KMSG_BUF_SIZE != (offset + n) % KMSG_BUF_SIZE;
    }
  }

  // ---------------------------------------------------------------- eviction

  /** The first entry kept when `need` bytes must be free: the shortest oldest prefix is dropped. */
  ghost function Evicted(log: seq<Entry>, first: nat, need: nat): (k: nat)
    requires AllStorable(log) && first <= |log| && need < KMSG_BUF_SIZE
    ensures first <= k <= |log| && Size(log[k..]) + need < 16384
    ensures forall j :: first <= j < k ==> Size(log[j..]) + need >= 16384
    decreases |log| - first
  {
    if Size(log[first..]) + need < KMSG_BUF_SIZE then first else Evicted(log, first + 1, need)
  }

  // ------------------------------------------------------------------ reading

  function Decimal(n: nat): (s: seq<byte>)
    ensures |s| > 0 && forall i :: 0 <= i < |s| ==> 48 <= s[i] <= 57
  {
    if n < 10 then [48 + n] else Decimal(n / 10) + [48 + n % 10]
  }

  function HeaderText(h: Header): seq<byte> {
    Decimal(h.level) + [44] + Decimal(h.seqno) + [44] + Decimal(h.timestamp) + [59]
  }

  /** "level,seq,timestamp;text" and a newline. */
  function Format(e: Entry): seq<byte> {
    HeaderText(HeaderOf(e)) + e.text + [10]
  }

  datatype Outcome = NoMore | TooSmall | Got(entry: Entry)

  /** What a read at `cursor` into `size` bytes yields, and where it leaves the cursor. */
  function ReadSpec(log: seq<Entry>, first: nat, cursor: nat, size: nat): (Outcome, nat) {
    var c := if cursor < first then first else cursor;
    if c >= |log| then (NoMore, c)
    else if |Format(log[c])| >= size then (TooSmall, c)
    else (Got(log[c]), c + 1)
  }

  class Kmsg {
    const buf: array<byte>
    var head: nat
    var tail: nat
    var nextSeq: nat
    var firstSeq: nat
    ghost var log: seq<Entry>  // every entry ever logged, the evicted ones included

    ghost predicate Valid()
      reads this, buf
    {
      && buf.Length == KMSG_BUF_SIZE && tail < KMSG_BUF_SIZE
      && firstSeq <= nextSeq == |log| < UINT32
      && AllStorable(log) && (forall i :: 0 <= i < |log| ==> log[i].seqno == i)
      && Size(log[firstSeq..]) < KMSG_BUF_SIZE
      && head == (tail + Size(log[firstSeq..])) % KMSG_BUF_SIZE
      && Slice(buf[..], tail, Size(log[firstSeq..])) == EncodeAll(log[firstSeq..])
    }

    constructor ()
      ensures Valid() && log == [] && fresh(buf)
    {
      buf := new byte[KMSG_BUF_SIZE](_ => 0);
      head, tail, nextSeq, firstSeq, log := 0, 0, 0, 0, [];
    }

    function Used(): nat
      requires head < KMSG_BUF_SIZE && tail < KMSG_BUF_SIZE
      reads this
    {
      if head >= tail then head - tail else KMSG_BUF_SIZE - tail + head
    }

    method BufRead(offset: nat, n: nat) returns (dst: seq<byte>)
      requires buf.Length == KMSG_BUF_SIZE
      ensures dst == Slice(buf[..], offset, n)
    {
      dst := [];
      for i := 0 to n
        invariant dst == Slice(buf[..], offset, i)
      {
        dst := dst + [buf[(offset + i) % KMSG_BUF_SIZE]];
      }
    }

    method BufWrite(src: seq<byte>, ghost used: nat)
      requires buf.Length == KMSG_BUF_SIZE && tail < KMSG_BUF_SIZE && used + |src| <= KMSG_BUF_SIZE
      requires head == (tail + used) % KMSG_BUF_SIZE
      modifies buf, this`head
      ensures Slice(buf[..], tail, used + |src|) == Slice(old(buf[..]), tail, used) + src
      ensures head == (tail + used + |src|) % KMSG_BUF_SIZE
    {
      hide Slice;
      for i := 0 to |src|
        invariant Slice(buf[..], tail, used + i) == Slice(old(buf[..]), tail, used) + src[..i]
        invariant head == old(head)
      {
        ghost var before := buf[..];
        SliceExtends(before, tail, used + i, src[i]);
        AddWrapped(head, tail + used, i);
        buf[(head + i) % KMSG_BUF_SIZE] := src[i];
        assert buf[..] == before[(tail + (used + i)) % KMSG_BUF_SIZE := src[i]];
      }
      AddWrapped(head, tail + used, |src|);
      head := (head + |src|) % KMSG_BUF_SIZE;
    }

    lemma UsedIsSize()
      requires Valid()
      ensures head < KMSG_BUF_SIZE && Used() == Size(log[firstSeq..])
    {
      hide Size, Slice, AllStorable;
    }

    method DiscardOldest()
      requires Valid() && firstSeq < |log|
      modifies this`tail, this`firstSeq
      ensures Valid() && firstSeq == old(firstSeq) + 1
    {
      hide Slice, EncodeAll, DecodeHeader, Size;
      FirstRecord(buf[..], tail, log[firstSeq..]);
      assert log[firstSeq..][1..] == log[firstSeq + 1..];
      var raw := BufRead(tail, HEADER_SIZE);
      var hdr := DecodeHeader(raw);
      AddWrapped((tail + EntrySize(hdr.len)) % KMSG_BUF_SIZE, tail + EntrySize(hdr.len), Size(log[firstSeq + 1..]));
      tail := (tail + EntrySize(hdr.len)) % KMSG_BUF_SIZE;
      firstSeq := hdr.seqno + 1;
    }

    /** Writes one record at `head`: header, text and terminator. */
    method WriteRecord(hdr: Header, line: seq<byte>, ghost used: nat)
      requires buf.Length == KMSG_BUF_SIZE && tail < KMSG_BUF_SIZE && used + EntrySize(|line|) < KMSG_BUF_SIZE
      requires head == (tail + used) % KMSG_BUF_SIZE
      requires Storable(Entry(hdr.seqno, hdr.timestamp, hdr.level, hdr.facility, line)) && hdr.len == |line|
      modifies buf, this`head
      ensures var e := Entry(hdr.seqno, hdr.timestamp, hdr.level, hdr.facility, line);
              Slice(buf[..], tail, used + EntrySize(|line|)) == Slice(old(buf[..]), tail, used) + Encode(e)
      ensures head == (tail + used + EntrySize(|line|)) % KMSG_BUF_SIZE
    {
      hide Slice, EncodeHeader;
      BufWrite(EncodeHeader(hdr), used);
      BufWrite(line, used + HEADER_SIZE);
      BufWrite([0], used + HEADER_SIZE + |line|);
    }

    /** Appends one numbered entry and evicts exactly the shortest oldest prefix that makes room. */
    method LogRaw(level: int, facility: int, text: seq<byte>, now: nat)
      requires Valid() && |log| + 1 < UINT32 && |text| < 65536
      modifies this, buf
      ensures Valid()
      ensures log == old(log) + [LoggedEntry(|old(log)|, level, facility, text, now)]
      ensures Records(log[|old(log)|], |old(log)|, level, facility, text, now)
      ensures firstSeq == Evicted(old(log), old(firstSeq), EntrySize(if |text| < 256 then |text| else 256))
    {
      hide Slice, EncodeAll, Encode;
      var line := Clipped(text);
      MakeRoom(EntrySize(|line|));
      ghost var kept, e := log[firstSeq..], LoggedEntry(nextSeq, level, facility, text, now);
      var hdr := Header(nextSeq, now % UINT32, level % 256, facility % 256, |line|);
      nextSeq := nextSeq + 1;
      WriteRecord(hdr, line, Size(kept));
      EncodeAllAppend(kept, e);
      log := log + [e];
      assert log[firstSeq..] == kept + [e];
    }

    /** A line that was just logged is what a read at its number returns, if the buffer can hold it. */
    method LogThenRead(level: int, facility: int, text: seq<byte>, now: nat, size: nat)
      returns (ret: int, out: seq<byte>)
      requires Valid() && |log| + 1 < UINT32 && |text| < 65536
      modifies this, buf
      ensures Valid() && (ret == -1 || ret == -2 || 0 < ret < size)
      ensures size > 300 ==> ret > 0
      ensures ret > 0 ==> |out| == ret + 1 && out[ret] == 0 && out[ret - 1] == 10
      ensures ret > 0 ==>
                Parse(out[..ret]) == (level % 256, |old(log)|, now % 0x1_0000_0000, text[..Shorter(|text|, 256)])
    {
      hide Slice, EncodeAll, Size, Format;
      ghost var n := nextSeq;
      var number := nextSeq;
      LogRaw(level, facility, text, now);
      var next;
      ret, next, out := Read(number, size);
      FormatRoundTrip(log[n]);
      FormatLength(log[n]);
    }

    method MakeRoom(need: nat)
      requires Valid() && need < KMSG_BUF_SIZE
      modifies this`tail, this`firstSeq
      ensures Valid() && firstSeq == Evicted(log, old(firstSeq), need)
    {
      hide Slice, EncodeAll, Size;
      UsedIsSize();
      while KMSG_BUF_SIZE - Used() - 1 < need && tail != head
        invariant Valid() && head < KMSG_BUF_SIZE && Used() == Size(log[firstSeq..])
        invariant Evicted(log, firstSeq, need) == Evicted(log, old(firstSeq), need)
        decreases |log| - firstSeq
      {
        NonEmpty();
        DiscardOldest();
        UsedIsSize();
      }
      EnoughRoom(need);
    }

    /** Returns -1, -2 or the number of bytes of the formatted entry, which `out` then holds. */
    method Read(cursor: nat, size: nat) returns (ret: int, cursor': nat, out: seq<byte>)
      requires Valid()
      ensures size == 0 ==> ret == -1 && cursor' == cursor
      ensures size > 0 ==>
                var (outcome, c) := ReadSpec(log, firstSeq, cursor, size);
                cursor' == c &&
                match outcome
                case NoMore => ret == -1
                case TooSmall => ret == -2
                case Got(e) => ret == |Format(e)| < size && out == Format(e) + [0]
      ensures size > 0 ==>
                var c := if cursor < firstSeq then firstSeq else cursor;
                && (ret == -1 <==> c >= |log|) && (ret == -2 <==> c < |log| && |Format(log[c])| >= size)
                && cursor' == if ret < 0 then c else c + 1
    {
      hide Slice, EncodeAll, Size, HeaderText;
      cursor', out := cursor, [];
      if size == 0 {
        return -1, cursor', out;
      }
      if cursor' < firstSeq {
        cursor' := firstSeq;
      }
      if cursor' >= nextSeq {
        return -1, cursor', out;
      }
      var offset := Locate(cursor');
      var hdr, text := Load(offset, cursor');
      var header := HeaderText(hdr);
      var total := |header| + hdr.len + 1;
      if total >= size {
        return -2, cursor', out;
      }
      out := header + text + [10] + [0];
      cursor' := hdr.seqno + 1;
      return total, cursor', out;
    }

    /** Walks the records from the oldest one to the one numbered `seqno`. */
    method Locate(seqno: nat) returns (offset: nat)
      requires Valid() && firstSeq <= seqno < nextSeq
      ensures offset < KMSG_BUF_SIZE && AllStorable(log[seqno..])
      ensures Slice(buf[..], offset, Size(log[seqno..])) == EncodeAll(log[seqno..])
    {
      hide Slice, EncodeAll, Size, DecodeHeader;
      var cur: nat := firstSeq;
      offset := tail;
      while cur < seqno
        invariant firstSeq <= cur <= seqno && offset < KMSG_BUF_SIZE
        invariant AllStorable(log[cur..]) && Slice(buf[..], offset, Size(log[cur..])) == EncodeAll(log[cur..])
      {
        FirstRecord(buf[..], offset, log[cur..]);
        assert log[cur..][1..] == log[cur + 1..];
        var raw := BufRead(offset, HEADER_SIZE);
        offset := (offset + EntrySize(DecodeHeader(raw).len)) % KMSG_BUF_SIZE;
        cur := cur + 1;
      }
    }

    /** Reads back the record at `offset`, the one numbered `seqno`. */
    method Load(offset: nat, seqno: nat) returns (hdr: Header, text: seq<byte>)
      requires Valid() && firstSeq <= seqno < nextSeq
      requires offset < KMSG_BUF_SIZE && AllStorable(log[seqno..])
      requires Slice(buf[..], offset, Size(log[seqno..])) == EncodeAll(log[seqno..])
      ensures hdr == HeaderOf(log[seqno]) && text == log[seqno].text
    {
      hide Slice, EncodeAll, Size, DecodeHeader;
      FirstRecord(buf[..], offset, log[seqno..]);
      var raw := BufRead(offset, HEADER_SIZE);
      hdr := DecodeHeader(raw);
      text := BufRead((offset + HEADER_SIZE) % KMSG_BUF_SIZE, hdr.len);
    }

    lemma NonEmpty()
      requires Valid() && tail != head
      ensures firstSeq < |log|
    {
    }

    lemma EnoughRoom(need: nat)
      requires Valid() && head < KMSG_BUF_SIZE && Used() == Size(log[firstSeq..])
      requires !(KMSG_BUF_SIZE - Used() - 1 < need && tail != head) && need < KMSG_BUF_SIZE
      ensures Size(log[firstSeq..]) + need < KMSG_BUF_SIZE
    {
    }
  }

  function Clipped(text: seq<byte>): (line: seq<byte>)
    ensures |line| <= KMSG_MAX_LINE
  {
    if |text| > KMSG_MAX_LINE then text[..KMSG_MAX_LINE] else text
  }

  function LoggedEntry(seqno: nat, level: int, facility: int, text: seq<byte>, now: nat): Entry {
    Entry(seqno, now % UINT32, level % 256, facility % 256, Clipped(text))
  }

  function Shorter(a: nat, b: nat): nat { if a < b then a else b }

  /** Entry `e` records a call of `kmsg_log_raw` with these arguments under number `n`: level and facility
      cut to a byte, the time to 32 bits and the text to 256 bytes. */
  predicate Records(e: Entry, n: nat, level: int, facility: int, text: seq<byte>, now: nat) {
    && e.seqno == n && e.level == level % 256 && e.facility == facility % 256
    && e.timestamp == now % 0x1_0000_0000 && e.text == text[..Shorter(|text|, 256)]
  }

  // --------------------------------------------------- what the reader can recover

  function Digits(s: seq<byte>): nat {
    if s == [] || !(48 <= s[0] <= 57) then 0 else 1 + Digits(s[1..])
  }

  function Value(s: seq<byte>): nat
    requires forall i :: 0 <= i < |s| ==> 48 <= s[i] <= 57
  {
    if s == [] then 0 else Value(s[..|s| - 1]) * 10 + (s[|s| - 1] - 48)
  }

  lemma {:induction false} DecimalRoundTrip(n: nat)
    ensures Value(Decimal(n)) == n
    decreases n
  {
    if n >= 10 {
      DecimalRoundTrip(n / 10);
      assert Decimal(n)[..|Decimal(n)| - 1] == Decimal(n / 10);
    } else {
      assert Value([48 + n]) == Value([]) * 10 + n by { assert [48 + n][..0] == []; }
    }
  }

  lemma {:induction false} DigitsStop(s: seq<byte>, rest: seq<byte>)
    requires (forall i :: 0 <= i < |s| ==> 48 <= s[i] <= 57) && rest != [] && !(48 <= rest[0] <= 57)
    ensures Digits(s + rest) == |s|
  {
    if s == [] {
      assert s + rest == rest;
    } else {
      assert (s + rest)[1..] == s[1..] + rest;
      DigitsStop(s[1..], rest);
    }
  }

  /** Splits off a decimal number and the separator after it. */
  function Field(s: seq<byte>): (nat, seq<byte>) {
    var d := Digits(s);
    if d < |s| && (forall i :: 0 <= i < d ==> 48 <= s[i] <= 57) then (Value(s[..d]), s[d + 1..]) else (0, [])
  }

  lemma FieldRoundTrip(n: nat, sep: byte, rest: seq<byte>)
    requires !(48 <= sep <= 57)
    ensures Field(Decimal(n) + [sep] + rest) == (n, rest)
  {
    var s := Decimal(n) + [sep] + rest;
    assert s == Decimal(n) + ([sep] + rest);
    DigitsStop(Decimal(n), [sep] + rest);
    DecimalRoundTrip(n);
    assert s[..|Decimal(n)|] == Decimal(n) && s[|Decimal(n)| + 1..] == rest;
  }

  /** The level, sequence number, timestamp and text a reader parses out of a formatted entry. */
  function Parse(s: seq<byte>): (nat, nat, nat, seq<byte>) {
    var (level, s1) := Field(s);
    var (seqno, s2) := Field(s1);
    var (timestamp, s3) := Field(s2);
    (level, seqno, timestamp, if s3 == [] then [] else s3[..|s3| - 1])
  }

  lemma FormatRoundTrip(e: Entry)
    ensures Parse(Format(e)) == (e.level, e.seqno, e.timestamp, e.text)
  {
    hide Field, Decimal;
    var s3 := e.text + [10];
    var s2 := Decimal(e.timestamp) + [59] + s3;
    var s1 := Decimal(e.seqno) + [44] + s2;
    assert Format(e) == Decimal(e.level) + [44] + s1;
    FieldRoundTrip(e.level, 44, s1);
    FieldRoundTrip(e.seqno, 44, s2);
    FieldRoundTrip(e.timestamp, 59, s3);
    assert s3[..|s3| - 1] == e.text;
  }

  lemma {:induction false} DecimalLength(n: nat, bound: nat, k: nat)
    requires n < bound && bound == Power10(k) && k > 0
    ensures |Decimal(n)| <= k
    decreases n
  {
    if n >= 10 {
      DecimalLength(n / 10, Power10(k - 1), k - 1);
    }
  }

  function Power10(k: nat): (p: nat)
    ensures p > 0
  {
    if k == 0 then 1 else 10 * Power10(k - 1)
  }

  lemma FormatLength(e: Entry)
    requires Storable(e)
    ensures 0 < |Format(e)| <= 283 && Format(e)[|Format(e)| - 1] == 10
  {
    hide Decimal;
    assert Power10(3) == 1000;
    assert Power10(5) == 100000;
    assert Power10(10) == 10000000000 by { assert Power10(7) == 10000000; }
    DecimalLength(e.level, 1000, 3);
    DecimalLength(e.seqno, 10000000000, 10);
    DecimalLength(e.timestamp, 10000000000, 10);
  }

  // --------------------------------------------------------------------- runs

  datatype Op = Log(level: int, facility: int, text: seq<byte>, now: nat) | ReadOp(size: nat)

  /** The log as a numbered queue, one reader's cursor and what that reader has received. */
  datatype System = System(log: seq<Entry>, first: nat, cursor: nat, got: seq<Entry>)

  ghost predicate Ready(m: System) {
    AllStorable(m.log) && m.first <= |m.log| <= UINT32
  }

  ghost function Apply(m: System, op: Op): System
    requires Ready(m)
  {
    match op
    case Log(level, facility, text, now) =>
      m.(log := m.log + [LoggedEntry(|m.log|, level, facility, text, now)],
         first := Evicted(m.log, m.first, EntrySize(|Clipped(text)|)))
    case ReadOp(size) =>
      if size == 0 then m
      else
        var (outcome, c) := ReadSpec(m.log, m.first, m.cursor, size);
        m.(cursor := c, got := if outcome.Got? then m.got + [outcome.entry] else m.got)
  }

  /** Logs and reads in any order, from an empty log, with fewer than 2^32 logs. */
  ghost predicate Run(ops: seq<Op>, states: seq<System>, start: nat) {
    && |states| == |ops| + 1 && states[0] == System([], 0, start, [])
    && forall k :: 0 <= k < |ops| ==>
         Ready(states[k]) && (ops[k].Log? ==> |states[k].log| < UINT32) && states[k + 1] == Apply(states[k], ops[k])
  }

  ghost predicate Received(m: System, seqno: nat) {
    exists i :: 0 <= i < |m.got| && m.got[i].seqno == seqno
  }

  ghost predicate Faithful(m: System, start: nat) {
    && Ready(m) && (forall i :: 0 <= i < |m.log| ==> m.log[i].seqno == i)
    && start <= m.cursor
    && (forall i :: 0 <= i < |m.got| ==>
          m.got[i].seqno < m.cursor && m.got[i].seqno < |m.log| && m.got[i] == m.log[m.got[i].seqno])
    && (forall i, j :: 0 <= i < j < |m.got| ==> m.got[i].seqno < m.got[j].seqno)
    && (forall x: nat :: start <= x < m.cursor ==> x < m.first || Received(m, x))
  }

  lemma ApplyIsFaithful(m: System, op: Op, start: nat)
    requires Faithful(m, start) && (op.Log? ==> |m.log| < UINT32)
    ensures Faithful(Apply(m, op), start) && m.first <= Apply(m, op).first
  {
    hide Size, Format;
    var r := Apply(m, op);
    match op
    case Log(_, _, _, _) =>
      assert forall x :: Received(m, x) ==> Received(r, x);
    case ReadOp(size) =>
      forall x: nat | start <= x < r.cursor ensures x < r.first || Received(r, x) {
        if x < m.cursor {
          if Received(m, x) {
            var i :| 0 <= i < |m.got| && m.got[i].seqno == x;
            assert r.got[i].seqno == x;
          }
        } else if r.first <= x {
          assert r.got[|m.got|].seqno == x;
        }
      }
  }

  /** For every interleaving: the reader sees strictly increasing sequence numbers, each with the
      entry logged under that number, and skips only entries that were evicted. */
  lemma {:induction false} ReaderSeesTheLog(ops: seq<Op>, states: seq<System>, start: nat, k: nat)
    requires Run(ops, states, start) && k <= |ops|
    ensures Faithful(states[k], start)
  {
    hide Apply, Faithful;
    if k == 0 {
      StartIsFaithful(start);
    } else {
      ReaderSeesTheLog(ops, states, start, k - 1);
      ApplyIsFaithful(states[k - 1], ops[k - 1], start);
    }
  }

  lemma StartIsFaithful(start: nat)
    ensures Faithful(System([], 0, start, []), start)
  {
  }

  // --------------------------------------------- what a reader gets, by the calls

  /** How many of the operations are logs. */
  function Logs(ops: seq<Op>): nat {
    if ops == [] then 0 else Logs(ops[..|ops| - 1]) + if ops[|ops| - 1].Log? then 1 else 0
  }

  /** Operation `j` logged entry `e` as number `n`. */
  ghost predicate LoggedBy(ops: seq<Op>, j: nat, e: Entry, n: nat) {
    && j < |ops| && ops[j].Log? && Logs(ops[..j]) == n
    && Records(e, n, ops[j].level, ops[j].facility, ops[j].text, ops[j].now)
  }

  lemma {:induction false} EveryEntryWasLogged(ops: seq<Op>, states: seq<System>, start: nat, k: nat, n: nat)
    returns (j: nat)
    requires Run(ops, states, start) && k <= |ops| && n < |states[k].log|
    ensures j < k && LoggedBy(ops, j, states[k].log[n], n)
    ensures |states[k].log| == Logs(ops[..k])
  {
    hide Apply, Records, Logs, Ready;
    LogsSoFar(ops, states, start, k);
    if k > 0 {
      LogsSoFar(ops, states, start, k - 1);
      AppliedLog(states[k - 1], ops[k - 1]);
      if n < |states[k - 1].log| {
        j := EveryEntryWasLogged(ops, states, start, k - 1, n);
      } else {
        j := k - 1;
      }
    }
  }

  /** A log call appends the entry that records it, and a read leaves the log alone. */
  lemma AppliedLog(m: System, op: Op)
    requires Ready(m)
    ensures var r := Apply(m, op).log;
            if op.Log? then
              |r| == |m.log| + 1 && r[..|m.log|] == m.log
              && Records(r[|m.log|], |m.log|, op.level, op.facility, op.text, op.now)
            else r == m.log
  {
    hide ReadSpec, Evicted, AllStorable;
  }

  lemma {:induction false} LogsSoFar(ops: seq<Op>, states: seq<System>, start: nat, k: nat)
    requires Run(ops, states, start) && k <= |ops|
    ensures |states[k].log| == Logs(ops[..k])
  {
    hide Apply, Records, Ready;
    if k > 0 {
      LogsSoFar(ops, states, start, k - 1);
      AppliedLog(states[k - 1], ops[k - 1]);
      assert ops[..k][..k - 1] == ops[..k - 1];
    }
  }

  /** In every interleaving, each line a reader received parses back to the level, the number, the time and
      the text of the call that logged it: the call with that many logs before it. */
  lemma ReaderGetsWhatWasLogged(ops: seq<Op>, states: seq<System>, start: nat, k: nat, i: nat) returns (j: nat)
    requires Run(ops, states, start) && k <= |ops| && i < |states[k].got|
    ensures j < k && ops[j].Log? && states[k].got[i].facility == ops[j].facility % 256
    ensures var call := ops[j];
            Parse(Format(states[k].got[i])) ==
            (call.level % 256, Logs(ops[..j]), call.now % 0x1_0000_0000, call.text[..Shorter(|call.text|, 256)])
  {
    hide Apply, Parse, Format;
    ReaderSeesTheLog(ops, states, start, k);
    var e := states[k].got[i];
    j := EveryEntryWasLogged(ops, states, start, k, e.seqno);
    FormatRoundTrip(e);
  }
}
