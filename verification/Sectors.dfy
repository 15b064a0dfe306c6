/**
 Disks as the partition tools see them: 512-byte sectors by block address, with
 little-endian numbers inside.  A block address without a sector is a failed read.
 */
module Sectors {
  import opened Basics

  type Sector = s: seq<Byte> | |s| == 512 witness seq(512, _ => 0)

  type Disk = map<nat, Sector>

  const TWO_16 := 0x1_0000
  const TWO_32 := 0x1_0000_0000
  const TWO_64 := 0x1_0000_0000_0000_0000

  function U16(s: seq<Byte>, i: nat): (n: nat)
    requires i + 2 <= |s|
    ensures n < TWO_16
  {
    s[i] as int + 0x100 * (s[i + 1] as int)
  }

  function U32(s: seq<Byte>, i: nat): (n: nat)
    requires i + 4 <= |s|
    ensures n < TWO_32
  {
    U16(s, i) + TWO_16 * U16(s, i + 2)
  }

  function U64(s: seq<Byte>, i: nat): (n: nat)
    requires i + 8 <= |s|
    ensures n < TWO_64
  {
    U32(s, i) + TWO_32 * U32(s, i + 4)
  }

  function Bytes32(n: nat): (r: seq<Byte>)
    requires n < TWO_32
    ensures |r| == 4
  {
    [n % 0x100, n / 0x100 % 0x100, n / TWO_16 % 0x100, n / 0x100_0000]
  }

  lemma {:induction false} U32RoundTrip(n: nat, s: seq<Byte>, i: nat)
    requires n < TWO_32 && i + 4 <= |s| && s[i..i + 4] == Bytes32(n)
    ensures U32(s, i) == n
  {
    var b := s[i..i + 4];
    assert s[i] == b[0] && s[i + 1] == b[1] && s[i + 2] == b[2] && s[i + 3] == b[3];
    Digits(n);
  }

  function Bytes64(n: nat): (r: seq<Byte>)
    requires n < TWO_64
    ensures |r| == 8
  {
    Bytes32(n % TWO_32) + Bytes32(n / TWO_32)
  }

  /** Eight bytes, lowest first, read as the number they stand for. */
  lemma {:induction false} U64RoundTrip(n: nat, s: seq<Byte>, i: nat)
    requires n < TWO_64 && i + 8 <= |s| && s[i..i + 8] == Bytes64(n)
    ensures U64(s, i) == n
  {
    hide Bytes32, U32;
    var b := s[i..i + 8];
    assert s[i..i + 4] == b[..4] && s[i + 4..i + 8] == b[4..];
    U32RoundTrip(n % TWO_32, s, i);
    U32RoundTrip(n / TWO_32, s, i + 4);
  }

  lemma {:induction false} Digits(n: nat)
    ensures n % 0x100 + 0x100 * (n / 0x100 % 0x100) + TWO_16 * (n / TWO_16 % 0x100 + 0x100 * (n / 0x100_0000)) == n
  {
    var m := n / 0x100;
    assert n / TWO_16 == m / 0x100 && n / 0x100_0000 == m / 0x100 / 0x100;
  }
}
