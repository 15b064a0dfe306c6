/**
 The GUID partition table as `gptsync` reads it (section 5.3 of the UEFI Specification):
 the header in sector 1, the entry array it points to, and the table of known types.
 */
module Gpt {
  import opened Basics
  import opened Sectors
  import opened FsDetect

  datatype Kind = System | Data | BasicData | Fatal

  /** A known partition type; the GUID is its 16 bytes in disk order read as one number. */
  datatype GptType = GptType(guid: nat, mbrType: nat, kind: Kind)

  /** A used entry, with the MBR type and kind of its partition type. */
  datatype GptPart = GptPart(index: nat, start: nat, end: nat, mbrType: nat, gptType: GptType)

  const GENERAL_TYPES: seq<GptType> := [
    GptType(0x28732AC11FF8D211BA4B00A0C93EC93B, 0xef, System),
    GptType(0x41EE4D02E733D3119D690008C781F39F, 0x00, Fatal),
    GptType(0x16E3C9E35C0BB84D817DF92DF00215AE, 0x00, System),
    GptType(0xA2A0D0EBE5B9334487C068B6B72699C7, 0x00, BasicData),
    GptType(0xAAC808588F7EE04285D2E1E90434CFB3, 0x00, Fatal),
    GptType(0xA0609BAF3114624FBC683311714A69AD, 0x00, Fatal),
    GptType(0x1E4C8975EB3AD311B7C17B03A0000000, 0x00, Data),
    GptType(0x28E7A1E2E332D611A6827B03A0000000, 0x00, System),
    GptType(0x0F889DA1FC053B4DA006743F0F84911E, 0xfd, Data),
    GptType(0x6DFD5706ABA4C44384E50933C84B4F4F, 0x82, System),
    GptType(0x79D3D6E607F5C244A23C238F2A3DF928, 0x8e, Data),
    GptType(0x3933A68D0700C060C436083AC8230908, 0x00, System),
    GptType(0x4861682149646F6E744E656564454649, 0x00, System)
  ]

  const BSD_TYPES: seq<GptType> := [
    GptType(0xB47C6E51CF6ED6118FF800022D09712B, 0xa5, Data),
    GptType(0xB57C6E51CF6ED6118FF800022D09712B, 0x00, System),
    GptType(0xB67C6E51CF6ED6118FF800022D09712B, 0xa5, Data),
    GptType(0xB87C6E51CF6ED6118FF800022D09712B, 0x00, Data),
    GptType(0xBA7C6E51CF6ED6118FF800022D09712B, 0xa5, Data),
    GptType(0x9D6BBD83417FDC11BE0B001560B84F0F, 0xa5, Data),
    GptType(0x328DF4490EB1DC11B99B0019D1879648, 0x00, System),
    GptType(0x5A8DF4490EB1DC11B99B0019D1879648, 0xa9, Data),
    GptType(0x828DF4490EB1DC11B99B0019D1879648, 0xa9, Data),
    GptType(0xAA8DF4490EB1DC11B99B0019D1879648, 0xa9, Data),
    GptType(0xC419B52D0EB1DC11B99B0019D1879648, 0xa9, Data),
    GptType(0xEC19B52D0EB1DC11B99B0019D1879648, 0xa9, Data)
  ]

  const APPLE_TYPES: seq<GptType> := [
    GptType(0x005346480000AA11AA1100306543ECAC, 0xaf, Data),
    GptType(0x005346550000AA11AA1100306543ECAC, 0xa8, Data),
    GptType(0x746F6F420000AA11AA1100306543ECAC, 0xab, Data),
    GptType(0x444941520000AA11AA1100306543ECAC, 0xac, Data),
    GptType(0x444941524F5FAA11AA1100306543ECAC, 0xac, Data),
    GptType(0x6562614C006CAA11AA1100306543ECAC, 0x00, System),
    GptType(0x6F6365526576AA11AA1100306543ECAC, 0x00, BasicData)
  ]

  const SOLARIS_TYPES: seq<GptType> := [
    GptType(0x7F23966AD21DB21199A6080020736631, 0x00, System),
    GptType(0x45CB826AD21DB21199A6080020736631, 0xbf, Data),
    GptType(0x4DCF856AD21DB21199A6080020736631, 0xbf, Data),
    GptType(0x6FC4876AD21DB21199A6080020736631, 0x00, System),
    GptType(0xC38C896AD21DB21199A6080020736631, 0xbf, Data),
    GptType(0x2B648B6AD21DB21199A6080020736631, 0x00, System),
    GptType(0xC72A8D6AD21DB21199A6080020736631, 0x00, System),
    GptType(0xE9F28E6AD21DB21199A6080020736631, 0xbf, Data),
    GptType(0x39BA906AD21DB21199A6080020736631, 0xbf, Data),
    GptType(0xA583926AD21DB21199A6080020736631, 0x00, System),
    GptType(0x3B5A946AD21DB21199A6080020736631, 0x00, System),
    GptType(0xD130966AD21DB21199A6080020736631, 0x00, System),
    GptType(0x6707986AD21DB21199A6080020736631, 0x00, System)
  ]

  const GPT_TYPES: seq<GptType> := GENERAL_TYPES + BSD_TYPES + APPLE_TYPES + SOLARIS_TYPES

  /** Stands for every type that is not in the table. */
  const DUMMY_TYPE := GptType(0, 0, Fatal)

  // ----- type table

  /** First row of a table with this GUID, searching from row i. */
  function Lookup(types: seq<GptType>, guid: nat, i: nat): (t: GptType)
    requires i <= |types|
    ensures t == DUMMY_TYPE || t in types
    decreases |types| - i
  {
    if i == |types| then DUMMY_TYPE
    else if types[i].guid == guid then types[i]
    else Lookup(types, guid, i + 1)
  }

  predicate NoneBefore(types: seq<GptType>, guid: nat, i: nat)
    requires i <= |types|
  {
    forall k | 0 <= k < i :: types[k].guid != guid
  }

  method GptParttype(types: seq<GptType>, guid: nat) returns (t: GptType)
    ensures t == Lookup(types, guid, 0)
    ensures NoneBefore(types, guid, |types|) ==> t == DUMMY_TYPE
    ensures forall i | 0 <= i < |types| && types[i].guid == guid && NoneBefore(types, guid, i) :: t == types[i]
  {
    var i := 0;
    while i < |types|
      invariant 0 <= i <= |types| && NoneBefore(types, guid, i)
      invariant Lookup(types, guid, 0) == Lookup(types, guid, i)
    {
      if types[i].guid == guid {
        return types[i];
      }
      i := i + 1;
    }
    return DUMMY_TYPE;
  }

  /** MBR types the table can give: none is extended or protective, and only system partitions are typed 0xef. */
  ghost predicate TypeAllowed(t: GptType) {
    && t.mbrType in {0x00, 0x82, 0x8e, 0xa5, 0xa8, 0xa9, 0xab, 0xac, 0xaf, 0xbf, 0xef, 0xfd}
    && (t.mbrType == 0xef ==> t.kind == System)
  }

  /** A row of the table, or the fatal type that stands for an unknown GUID. */
  ghost predicate KnownOrDummy(t: GptType) {
    t == DUMMY_TYPE || t in GPT_TYPES
  }

  lemma {:induction false} TableAllowed()
    ensures forall t | t in GPT_TYPES :: TypeAllowed(t)
  {
    assert forall t | t in GENERAL_TYPES :: TypeAllowed(t);
    assert forall t | t in BSD_TYPES :: TypeAllowed(t);
    assert forall t | t in APPLE_TYPES :: TypeAllowed(t);
    assert forall t | t in SOLARIS_TYPES :: TypeAllowed(t);
  }

  lemma {:induction false} LookupAllowed(guid: nat)
    ensures TypeAllowed(Lookup(GPT_TYPES, guid, 0)) && KnownOrDummy(Lookup(GPT_TYPES, guid, 0))
  {
    TableAllowed();
  }

  // ----- header and entries

  /** Bytes as one big-endian number. */
  function Number(s: seq<Byte>): nat {
    if s == [] then 0 else Number(s[..|s| - 1]) * 256 + s[|s| - 1] as int
  }

  predicate HasGpt(header: Sector) {
    U64(header, 0) == 0x5452415020494645
  }

  function EntryLba(header: Sector): nat { U64(header, 72) }

  function EntryCount(header: Sector): nat { U32(header, 80) }

  function EntrySize(header: Sector): nat { U32(header, 84) }

  predicate SizeAccepted(size: nat)
    requires size > 0
  {
    512 % size == 0 && size <= 512
  }

  /** The entry at byte offset `at` of a sector, or none if its type GUID is empty. */
  function Entry(s: Sector, at: nat, i: nat): Option<GptPart>
    requires at + 128 <= 512
  {
    var guid := Number(s[at..at + 16]);
    if guid == 0 then None else Some(GptPart(i, U64(s, at + 32), U64(s, at + 40), 0, Lookup(GPT_TYPES, guid, 0)))
  }

  /**
   An entry laid out as in section 5.3.3 of the UEFI Specification: the type in the first 16 bytes, the first and the
   last block in the bytes from 32 and from 40.
   */
  lemma {:induction false} EntryReadBack(s: Sector, at: nat, i: nat, start: nat, end: nat)
    requires at + 128 <= 512 && start < TWO_64 && end < TWO_64
    requires s[at + 32..at + 40] == Bytes64(start) && s[at + 40..at + 48] == Bytes64(end)
    ensures Entry(s, at, i).None? <==> forall k | at <= k < at + 16 :: s[k] == 0
    ensures Entry(s, at, i).Some? ==>
      Entry(s, at, i).value == GptPart(i, start, end, 0, Lookup(GPT_TYPES, Number(s[at..at + 16]), 0))
  {
    hide U64, Bytes64, Number, Lookup;
    U64RoundTrip(start, s, at + 32);
    U64RoundTrip(end, s, at + 40);
    NumberZero(s[at..at + 16]);
    var guid := s[at..at + 16];
    assert forall k | at <= k < at + 16 :: s[k] == guid[k - at];
    assert forall k | 0 <= k < 16 :: guid[k] == s[at + k];
  }

  lemma {:induction false} NumberZero(s: seq<Byte>)
    ensures Number(s) == 0 <==> forall k | 0 <= k < |s| :: s[k] == 0
  {
    if s != [] {
      NumberZero(s[..|s| - 1]);
      assert forall k | 0 <= k < |s| - 1 :: s[..|s| - 1][k] == s[k];
    }
  }

  /** The header fields of section 5.3.2 of the UEFI Specification that the reader uses. */
  lemma {:induction false} HeaderReadBack(s: Sector, lba: nat, count: nat, size: nat)
    requires lba < TWO_64 && count < TWO_32 && size < TWO_32
    requires s[72..80] == Bytes64(lba) && s[80..84] == Bytes32(count) && s[84..88] == Bytes32(size)
    ensures EntryLba(s) == lba && EntryCount(s) == count && EntrySize(s) == size
    ensures s[0..8] == [0x45, 0x46, 0x49, 0x20, 0x50, 0x41, 0x52, 0x54] ==> HasGpt(s)
  {
    hide Bytes64, Bytes32;
    U64RoundTrip(lba, s, 72);
    U32RoundTrip(count, s, 80);
    U32RoundTrip(size, s, 84);
    if s[0..8] == [0x45, 0x46, 0x49, 0x20, 0x50, 0x41, 0x52, 0x54] {
      SignatureBytes(s);
    }
  }

  lemma {:induction false} SignatureBytes(s: Sector)
    requires s[0..8] == [0x45, 0x46, 0x49, 0x20, 0x50, 0x41, 0x52, 0x54]
    ensures HasGpt(s)
  {
    var b := s[0..8];
    assert s[0] == b[0] && s[1] == b[1] && s[2] == b[2] && s[3] == b[3];
    assert s[4] == b[4] && s[5] == b[5] && s[6] == b[6] && s[7] == b[7];
  }

  /** Entries follow one another without gaps. */
  lemma {:induction false} EntryPlace(i: nat, size: nat)
    requires size in {128, 256, 512}
    ensures 512 * SectorOf(i, size) + OffsetIn(i, size) == i * size && OffsetIn(i, size) + 128 <= 512
  {
  }

  /** Sector of the array that holds entry i, and the entry's offset in it. */
  function SectorOf(i: nat, size: nat): (r: nat)
    requires size in {128, 256, 512}
    ensures r <= i
  {
    if size == 128 then assert i * 128 / 512 <= i; i * size / 512
    else if size == 256 then assert i * 256 / 512 <= i; i * size / 512
    else assert i * 512 / 512 <= i; i * size / 512
  }

  function OffsetIn(i: nat, size: nat): (r: nat)
    requires size in {128, 256, 512}
    ensures r + 128 <= 512
  {
    OffsetBound(i, size);
    i * size % 512
  }

  lemma {:induction false} OffsetBound(i: nat, size: nat)
    requires size in {128, 256, 512}
    ensures i * size % 512 + 128 <= 512
  {
    if size == 128 {
      Offset128(i);
    } else if size == 256 {
      Offset256(i);
    }
  }

  lemma {:induction false} Offset128(i: nat)
    ensures i * 128 % 512 <= 384
  {
  }

  lemma {:induction false} Offset256(i: nat)
    ensures i * 256 % 512 <= 256
  {
  }

  /** Used entries below n; none if a sector cannot be read.  Entry i starts i * size bytes into the array. */
  function Entries(disk: Disk, lba: nat, size: nat, n: nat): Option<seq<GptPart>>
    requires size in {128, 256, 512}
  {
    if n == 0 then Some([]) else
      match Entries(disk, lba, size, n - 1)
      case None => None
      case Some(ps) =>
        match Read(disk, lba + SectorOf(n - 1, size))
        case None => None
        case Some(s) =>
          match Entry(s, OffsetIn(n - 1, size), n - 1)
          case None => Some(ps)
          case Some(p) => Some(ps + [p])
  }

  /** What the reader takes for granted: a header that announces entries announces ones of at least 128 bytes. */
  predicate Wellformed(disk: Disk) {
    1 in disk && HasGpt(disk[1]) ==>
      EntrySize(disk[1]) > 0 && (SizeAccepted(EntrySize(disk[1])) ==> EntrySize(disk[1]) >= 128)
  }

  lemma {:induction false} AcceptedSizes(size: nat)
    requires size >= 128 && SizeAccepted(size)
    ensures size in {128, 256, 512}
  {
  }

  /** The partitions `read_gpt` finds, or none on a read error. */
  function ReadGpt(disk: Disk): Option<seq<GptPart>>
    requires Wellformed(disk)
  {
    if 1 !in disk then None
    else if !HasGpt(disk[1]) || !SizeAccepted(EntrySize(disk[1])) then Some([])
    else
      AcceptedSizes(EntrySize(disk[1]));
      Entries(disk, EntryLba(disk[1]), EntrySize(disk[1]), EntryCount(disk[1]))
  }

  /** Without a header nothing is read; without a signature or with an odd entry size there are no partitions. */
  lemma {:induction false} ReadGptLaws(disk: Disk)
    requires Wellformed(disk)
    ensures 1 !in disk ==> ReadGpt(disk) == None
    ensures 1 in disk && disk[1][0..8] != [0x45, 0x46, 0x49, 0x20, 0x50, 0x41, 0x52, 0x54] ==> ReadGpt(disk) == Some([])
    ensures 1 in disk && HasGpt(disk[1]) && EntrySize(disk[1]) !in {128, 256, 512} ==> ReadGpt(disk) == Some([])
    ensures 1 in disk && HasGpt(disk[1]) && EntrySize(disk[1]) in {128, 256, 512} ==>
      ReadGpt(disk) == Entries(disk, EntryLba(disk[1]), EntrySize(disk[1]), EntryCount(disk[1]))
  {
    hide Entries, U32;
    if 1 in disk && HasGpt(disk[1]) {
      SignatureIs(disk[1]);
      if SizeAccepted(EntrySize(disk[1])) {
        AcceptedSizes(EntrySize(disk[1]));
      }
    }
  }

  lemma {:induction false} SignatureIs(s: Sector)
    requires HasGpt(s)
    ensures s[0..8] == [0x45, 0x46, 0x49, 0x20, 0x50, 0x41, 0x52, 0x54]
  {
    assert 0x5452415020494645 == 0x20494645 + TWO_32 * 0x54524150;
    assert U32(s, 0) == 0x20494645 && U32(s, 4) == 0x54524150 by {
      hide U32;
      assert U64(s, 0) == U32(s, 0) + TWO_32 * U32(s, 4);
    }
    assert s[0..8] == [s[0], s[1], s[2], s[3], s[4], s[5], s[6], s[7]];
  }

  /** The partitions listed are exactly the used entries, read from where they lie. */
  lemma {:induction false} EntriesHold(disk: Disk, lba: nat, size: nat, n: nat, p: GptPart)
    requires size in {128, 256, 512} && Entries(disk, lba, size, n).Some?
    ensures p in Entries(disk, lba, size, n).value <==> exists i | 0 <= i < n :: EntryIs(disk, lba, size, i, p)
  {
    hide Entry, SectorOf, OffsetIn, Read;
    if n > 0 {
      EntriesHold(disk, lba, size, n - 1, p);
      var before, all := Entries(disk, lba, size, n - 1).value, Entries(disk, lba, size, n).value;
      assert EntryIs(disk, lba, size, n - 1, p) <==> p in all[|before|..];
    }
  }

  ghost predicate EntryIs(disk: Disk, lba: nat, size: nat, i: nat, p: GptPart)
    requires size in {128, 256, 512}
  {
    var s := Read(disk, lba + SectorOf(i, size));
    s.Some? && Entry(s.value, OffsetIn(i, size), i) == Some(p)
  }

  lemma {:induction false} EntriesAllowed(disk: Disk, lba: nat, size: nat, n: nat)
    requires size in {128, 256, 512}
    ensures Entries(disk, lba, size, n).Some? ==>
      forall p | p in Entries(disk, lba, size, n).value ::
        p.start < TWO_64 && p.end < TWO_64 && TypeAllowed(p.gptType) && KnownOrDummy(p.gptType)
  {
    hide TypeAllowed, KnownOrDummy, Lookup, Number, U64, SectorOf, OffsetIn, Read;
    if n > 0 {
      EntriesAllowed(disk, lba, size, n - 1);
      if Entries(disk, lba, size, n).Some? {
        var s := Read(disk, lba + SectorOf(n - 1, size)).value;
        var at := OffsetIn(n - 1, size);
        LookupAllowed(Number(s[at..at + 16]));
      }
    }
  }

  lemma {:induction false} ReadAllowed(disk: Disk)
    requires Wellformed(disk)
    ensures ReadGpt(disk).Some? ==>
      forall p | p in ReadGpt(disk).value ::
        p.start < TWO_64 && p.end < TWO_64 && TypeAllowed(p.gptType) && KnownOrDummy(p.gptType)
  {
    hide TypeAllowed, KnownOrDummy, Entries;
    if 1 in disk && HasGpt(disk[1]) && SizeAccepted(EntrySize(disk[1])) {
      AcceptedSizes(EntrySize(disk[1]));
      EntriesAllowed(disk, EntryLba(disk[1]), EntrySize(disk[1]), EntryCount(disk[1]));
    }
  }

  // ----- the table does not depend on sector 0

  /** The entry array lies clear of sector 0 and does not wrap around the end of the address space. */
  predicate ArrayClearOfMbr(disk: Disk) {
    1 in disk ==> 1 <= EntryLba(disk[1]) && EntryLba(disk[1]) + EntryCount(disk[1]) < TWO_64
  }

  lemma {:induction false} EntriesIgnoreMbr(disk: Disk, sec: Sector, lba: nat, size: nat, n: nat)
    requires size in {128, 256, 512} && 1 <= lba && lba + n < TWO_64
    ensures Entries(disk[0 := sec], lba, size, n) == Entries(disk, lba, size, n)
  {
    hide Entry, SectorOf, OffsetIn;
    if n > 0 {
      EntriesIgnoreMbr(disk, sec, lba, size, n - 1);
    }
  }

  lemma {:induction false} ReadIgnoresMbr(disk: Disk, sec: Sector)
    requires Wellformed(disk) && ArrayClearOfMbr(disk)
    ensures Wellformed(disk[0 := sec])
    ensures ReadGpt(disk[0 := sec]) == ReadGpt(disk)
  {
    hide Entries;
    if 1 in disk && HasGpt(disk[1]) && SizeAccepted(EntrySize(disk[1])) {
      AcceptedSizes(EntrySize(disk[1]));
      EntriesIgnoreMbr(disk, sec, EntryLba(disk[1]), EntrySize(disk[1]), EntryCount(disk[1]));
    }
  }
}
