/** Bytes in memory: 32-bit words, least significant byte first, and writing a run of bytes. */
module Bytes {

  type byte = b: int | 0 <= b < 256

  const UINT32 := 0x1_0000_0000

  function Bytes4(n: nat): (s: seq<byte>)
    requires n < UINT32
    ensures |s| == 4
  {
    [n % 256, n / 256 % 256, n / 65536 % 256, n / 16777216]
  }

  function Word4(s: seq<byte>): (n: nat)
    requires |s| == 4
    ensures n < UINT32
  {
    s[0] as int + 256 * s[1] as int + 65536 * s[2] as int + 16777216 * s[3] as int
  }

  lemma WordRoundTrip(n: nat)
    requires n < UINT32
    ensures Word4(Bytes4(n)) == n
  {
    assert n / 65536 == (n / 256) / 256 && n / 16777216 == (n / 65536) / 256;
  }

  /** `mem` with `bytes` written at address `at`. */
  function Splice(mem: seq<byte>, at: nat, bytes: seq<byte>): (r: seq<byte>)
    requires at + |bytes| <= |mem|
    ensures |r| == |mem|
    ensures r[at..at + |bytes|] == bytes
    ensures forall i: nat, j :: i <= j <= |mem| && (j <= at || at + |bytes| <= i) ==> r[i..j] == mem[i..j]
  {
    mem[..at] + bytes + mem[at + |bytes|..]
  }
}
