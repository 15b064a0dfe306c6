/**
 The master boot record as `gptsync` reads and writes it: four 16-byte slots at
 offset 446 of sector 0 (section 5.2 of the UEFI Specification).
 */
module Mbr {
  import opened Basics
  import opened Sectors

  const TABLE := 446
  const BOOTCODE_SIZE := 440

  /** A partition; block addresses are unsigned 64-bit numbers. */
  datatype Part = Part(index: nat, start: nat, end: nat, mbrType: nat, active: bool)

  // ----- reading

  function SlotFlags(sec: Sector, i: nat): nat requires i < 4 { sec[TABLE + 16 * i] }

  function SlotType(sec: Sector, i: nat): nat requires i < 4 { sec[TABLE + 16 * i + 4] }

  function SlotStart(sec: Sector, i: nat): nat requires i < 4 { U32(sec, TABLE + 16 * i + 8) }

  function SlotSize(sec: Sector, i: nat): nat requires i < 4 { U32(sec, TABLE + 16 * i + 12) }

  predicate SlotUsed(sec: Sector, i: nat)
    requires i < 4
  {
    SlotStart(sec, i) > 0 && SlotSize(sec, i) > 0
  }

  function SlotPart(sec: Sector, i: nat): Part
    requires i < 4 && SlotUsed(sec, i)
  {
    Part(i, SlotStart(sec, i), SlotStart(sec, i) + SlotSize(sec, i) - 1, SlotType(sec, i), SlotFlags(sec, i) == 0x80)
  }

  /** The partitions in the used slots below n, in slot order. */
  function UsedSlots(sec: Sector, n: nat): seq<Part>
    requires n <= 4
  {
    if n == 0 then []
    else UsedSlots(sec, n - 1) + if SlotUsed(sec, n - 1) then [SlotPart(sec, n - 1)] else []
  }

  predicate Signed(sec: Sector) {
    U16(sec, 510) == 0xaa55
  }

  predicate Readable(sec: Sector) {
    Signed(sec) && forall i | 0 <= i < 4 :: SlotFlags(sec, i) == 0x00 || SlotFlags(sec, i) == 0x80
  }

  /** A boot record is readable if it ends with 55 AA and the first byte of each slot is 00 or 80. */
  lemma {:induction false} ReadableExactly(sec: Sector)
    ensures Readable(sec) <==>
      && sec[510] == 0x55 && sec[511] == 0xaa
      && sec[446] in {0, 0x80} && sec[462] in {0, 0x80} && sec[478] in {0, 0x80} && sec[494] in {0, 0x80}
  {
    assert SlotFlags(sec, 0) == sec[446] && SlotFlags(sec, 1) == sec[462];
    assert SlotFlags(sec, 2) == sec[478] && SlotFlags(sec, 3) == sec[494];
  }

  // ----- writing

  /** Block numbers that do not fit in 32 bits are written as the largest that does. */
  function Clip(n: nat): (r: nat)
    ensures r < TWO_32
  {
    if n > 0xffff_ffff then 0xffff_ffff else n
  }

  function PartBytes(p: Part, flags: Byte): (r: seq<Byte>)
    ensures |r| == 16
  {
    [flags, 0xfe, 0xff, 0xff, p.mbrType % 256, 0xfe, 0xff, 0xff]
    + Bytes32(Clip(p.start)) + Bytes32(Clip((p.end + 1 - p.start) % TWO_64))
  }

  const UNUSED: seq<Byte> := [0, 0, 0, 0, 0, 0, 0, 0, 0, 0, 0, 0, 0, 0, 0, 0]

  /** Position of the first partition meant for slot i, or the number of partitions. */
  function FindSlot(parts: seq<Part>, i: nat, from: nat): (k: nat)
    requires from <= |parts|
    ensures from <= k <= |parts|
    ensures k < |parts| ==> parts[k].index == i
    decreases |parts| - from
  {
    if from == |parts| || parts[from].index == i then from else FindSlot(parts, i, from + 1)
  }

  /** The flag the next active slot gets: 0x80 until it has been given away. */
  function ActiveFlag(parts: seq<Part>, i: nat): Byte {
    if i == 0 then 0x80 else
      var k := FindSlot(parts, i - 1, 0);
      if k < |parts| && parts[k].active then 0x00 else ActiveFlag(parts, i - 1)
  }

  function SlotBytes(parts: seq<Part>, i: nat): (r: seq<Byte>)
    ensures |r| == 16
  {
    var k := FindSlot(parts, i, 0);
    if k == |parts| then UNUSED
    else PartBytes(parts[k], if parts[k].active then ActiveFlag(parts, i) else 0x00)
  }

  function TableBytes(parts: seq<Part>, n: nat): (r: seq<Byte>)
    ensures |r| == 16 * n
  {
    if n == 0 then [] else TableBytes(parts, n - 1) + SlotBytes(parts, n - 1)
  }

  predicate HasBootCode(sec: Sector) {
    exists i | 0 <= i < BOOTCODE_SIZE :: sec[i] != 0
  }

  /** Sector 0 after the table has been written into it: boot code only if there was none, bytes 440 to 445 kept. */
  function NewSector(sec: Sector, parts: seq<Part>, bootCode: seq<Byte>): Sector
    requires |bootCode| == BOOTCODE_SIZE
  {
    (if HasBootCode(sec) then sec[..BOOTCODE_SIZE] else bootCode)
    + sec[BOOTCODE_SIZE..TABLE] + TableBytes(parts, 4) + [0x55, 0xaa]
  }

  // ----- round trip

  /** A non-empty range of blocks from 1 on, with a byte-sized type. */
  predicate Proper(p: Part) {
    0 < p.start <= p.end < TWO_64 && p.mbrType < 256
  }

  /** Start and length are 32-bit numbers. */
  predicate Exact(p: Part) {
    p.start < TWO_32 && p.end + 1 - p.start < TWO_32
  }

  /** What the boot record can hold of a partition: a start or a length beyond 32 bits is clipped. */
  function Clipped(p: Part): Part
    requires Proper(p)
  {
    p.(start := Clip(p.start), end := Clip(p.start) + Clip(p.end + 1 - p.start) - 1)
  }

  /** A table with slots in order, proper entries and at most one active. */
  predicate Fits(parts: seq<Part>) {
    && |parts| <= 4
    && (forall k | 0 <= k < |parts| :: parts[k].index == k && Proper(parts[k]))
    && (forall j, k | 0 <= j < k < |parts| :: !(parts[j].active && parts[k].active))
  }

  function ClippedAll(parts: seq<Part>): (r: seq<Part>)
    requires forall k | 0 <= k < |parts| :: Proper(parts[k])
    ensures |r| == |parts| && forall k | 0 <= k < |parts| :: r[k] == Clipped(parts[k])
  {
    seq(|parts|, k requires 0 <= k < |parts| => Clipped(parts[k]))
  }

  lemma {:induction false} FindSlotInOrder(parts: seq<Part>, i: nat, from: nat)
    requires Fits(parts) && from <= |parts| && from <= i
    ensures FindSlot(parts, i, from) == if i < |parts| then i else |parts|
    decreases |parts| - from
  {
    if from < |parts| && parts[from].index != i {
      FindSlotInOrder(parts, i, from + 1);
    }
  }

  lemma {:induction false} FlagLeft(parts: seq<Part>, i: nat)
    requires Fits(parts) && i <= |parts| && forall j | 0 <= j < i :: !parts[j].active
    ensures ActiveFlag(parts, i) == 0x80
  {
    if i > 0 {
      FindSlotInOrder(parts, i - 1, 0);
      FlagLeft(parts, i - 1);
    }
  }

  lemma {:induction false} SlotBytesInOrder(parts: seq<Part>, i: nat)
    requires Fits(parts)
    ensures i < |parts| ==> SlotBytes(parts, i) == PartBytes(parts[i], if parts[i].active then 0x80 else 0x00)
    ensures i >= |parts| ==> SlotBytes(parts, i) == UNUSED
  {
    FindSlotInOrder(parts, i, 0);
    if i < |parts| && parts[i].active {
      FlagLeft(parts, i);
    }
  }

  lemma {:induction false} TableSlice(parts: seq<Part>, n: nat, i: nat)
    requires i < n
    ensures TableBytes(parts, n)[16 * i..16 * i + 16] == SlotBytes(parts, i)
  {
    hide SlotBytes;
    if i < n - 1 {
      TableSlice(parts, n - 1, i);
      assert TableBytes(parts, n)[16 * i..16 * i + 16] == TableBytes(parts, n - 1)[16 * i..16 * i + 16];
    }
  }

  lemma {:induction false} SectorSlice(sec: Sector, parts: seq<Part>, bootCode: seq<Byte>, i: nat)
    requires |bootCode| == BOOTCODE_SIZE && i < 4
    ensures NewSector(sec, parts, bootCode)[TABLE + 16 * i..TABLE + 16 * i + 16] == SlotBytes(parts, i)
  {
    hide TableBytes, SlotBytes, HasBootCode;
    TableSlice(parts, 4, i);
    var head := (if HasBootCode(sec) then sec[..BOOTCODE_SIZE] else bootCode) + sec[BOOTCODE_SIZE..TABLE];
    var table := TableBytes(parts, 4);
    assert NewSector(sec, parts, bootCode) == head + table + [0x55, 0xaa];
    assert (head + table + [0x55, 0xaa])[TABLE + 16 * i..TABLE + 16 * i + 16] == table[16 * i..16 * i + 16];
  }

  lemma {:induction false} PartBytesFields(p: Part, flags: Byte)
    requires Proper(p)
    ensures PartBytes(p, flags)[0] == flags && PartBytes(p, flags)[4] == p.mbrType
    ensures PartBytes(p, flags)[8..12] == Bytes32(Clip(p.start))
    ensures PartBytes(p, flags)[12..16] == Bytes32(Clip(p.end + 1 - p.start))
  {
    hide Bytes32;
    var size := p.end + 1 - p.start;
    assert size % TWO_64 == size;
  }

  /** Fields of a slot that holds the bytes of a partition. */
  lemma {:induction false} SlotFields(sec: Sector, i: nat, p: Part, flags: Byte)
    requires i < 4 && Proper(p)
    requires sec[TABLE + 16 * i..TABLE + 16 * i + 16] == PartBytes(p, flags)
    ensures SlotFlags(sec, i) == flags && SlotType(sec, i) == p.mbrType
    ensures SlotStart(sec, i) == Clip(p.start) && SlotSize(sec, i) == Clip(p.end + 1 - p.start)
  {
    hide U32, Bytes32, PartBytes, Clip;
    var at := TABLE + 16 * i;
    var slot := sec[at..at + 16];
    PartBytesFields(p, flags);
    assert sec[at] == slot[0] && sec[at + 4] == slot[4];
    assert sec[at + 8..at + 12] == slot[8..12];
    assert sec[at + 12..at + 16] == slot[12..16];
    U32RoundTrip(Clip(p.start), sec, at + 8);
    U32RoundTrip(Clip(p.end + 1 - p.start), sec, at + 12);
  }

  lemma {:induction false} UnusedFields(sec: Sector, i: nat)
    requires i < 4 && sec[TABLE + 16 * i..TABLE + 16 * i + 16] == UNUSED
    ensures SlotFlags(sec, i) == 0 && !SlotUsed(sec, i)
  {
  }

  lemma {:induction false} SlotReadBack(sec: Sector, parts: seq<Part>, bootCode: seq<Byte>, i: nat)
    requires |bootCode| == BOOTCODE_SIZE && Fits(parts) && i < 4
    ensures var new' := NewSector(sec, parts, bootCode);
      && SlotFlags(new', i) in {0x00, 0x80}
      && (SlotUsed(new', i) <==> i < |parts|)
      && (i < |parts| ==> SlotPart(new', i) == Clipped(parts[i]))
  {
    hide NewSector, SlotBytes, PartBytes, U32;
    var new' := NewSector(sec, parts, bootCode);
    SectorSlice(sec, parts, bootCode, i);
    SlotBytesInOrder(parts, i);
    if i < |parts| {
      SlotFields(new', i, parts[i], if parts[i].active then 0x80 else 0x00);
    } else {
      UnusedFields(new', i);
    }
  }

  lemma {:induction false} UsedReadBack(sec: Sector, parts: seq<Part>, bootCode: seq<Byte>, n: nat)
    requires |bootCode| == BOOTCODE_SIZE && Fits(parts) && n <= 4
    ensures UsedSlots(NewSector(sec, parts, bootCode), n) == ClippedAll(parts)[..if n <= |parts| then n else |parts|]
  {
    hide NewSector, SlotUsed, SlotPart, SlotFlags, Clipped, Proper;
    if n > 0 {
      UsedReadBack(sec, parts, bootCode, n - 1);
      SlotReadBack(sec, parts, bootCode, n - 1);
    }
  }

  /**
   A table is read back with starts and lengths clipped, and so unchanged exactly if all of them are 32-bit numbers.
   */
  lemma {:induction false} RoundTrip(sec: Sector, parts: seq<Part>, bootCode: seq<Byte>)
    requires |bootCode| == BOOTCODE_SIZE && Fits(parts)
    ensures Readable(NewSector(sec, parts, bootCode))
    ensures UsedSlots(NewSector(sec, parts, bootCode), 4) == ClippedAll(parts)
    ensures UsedSlots(NewSector(sec, parts, bootCode), 4) == parts <==>
      forall k | 0 <= k < |parts| :: Exact(parts[k])
  {
    var new' := NewSector(sec, parts, bootCode);
    assert new'[510] == 0x55 && new'[511] == 0xaa;
    forall i | 0 <= i < 4
      ensures SlotFlags(new', i) == 0x00 || SlotFlags(new', i) == 0x80
    {
      SlotReadBack(sec, parts, bootCode, i);
    }
    UsedReadBack(sec, parts, bootCode, 4);
    forall k | 0 <= k < |parts|
      ensures Proper(parts[k]) && (Clipped(parts[k]) == parts[k] <==> Exact(parts[k]))
    {
      assert Proper(parts[k]);
    }
  }

  /** Bytes 440 to 445 always survive, and the boot code survives whenever there was any. */
  lemma {:induction false} BytesKept(sec: Sector, parts: seq<Part>, bootCode: seq<Byte>)
    requires |bootCode| == BOOTCODE_SIZE
    ensures NewSector(sec, parts, bootCode)[440..446] == sec[440..446]
    ensures (exists i | 0 <= i < 440 :: sec[i] != 0) ==> NewSector(sec, parts, bootCode)[..440] == sec[..440]
    ensures (forall i | 0 <= i < 440 :: sec[i] == 0) ==> NewSector(sec, parts, bootCode)[..440] == bootCode
  {
  }
}
