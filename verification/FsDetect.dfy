/**
 File system detection of `gptsync/lib.c`: which MBR type the contents of a partition
 suggest, from a few sectors at its start.  0 means unknown or unreadable.
 */
module FsDetect {
  import opened Basics
  import opened Sectors

  /** Block addresses are unsigned 64-bit numbers. */
  function Read(disk: Disk, lba: nat): Option<Sector> {
    if lba % TWO_64 in disk then Some(disk[lba % TWO_64]) else None
  }

  predicate PowerOfTwo(n: nat) {
    n in {1, 2, 4, 8, 16, 32, 64, 128, 256, 512, 1024, 2048, 4096, 8192, 16384, 32768}
  }

  predicate HasText(s: Sector, i: nat, text: seq<Byte>) {
    i + |text| <= |s| && s[i..i + |text|] == text
  }

  const NTFS: seq<Byte> := [0x4e, 0x54, 0x46, 0x53, 0x20, 0x20, 0x20, 0x20]
  const BTRFS: seq<Byte> := [0x5f, 0x42, 0x48, 0x52, 0x66, 0x53, 0x5f, 0x4d]
  const REISER: seq<Byte> := [0x52, 0x65, 0x49, 0x73, 0x45, 0x72, 0x46, 0x73]
  const REISER2: seq<Byte> := [0x52, 0x65, 0x49, 0x73, 0x45, 0x72, 0x32, 0x46, 0x73]
  const REISER3: seq<Byte> := [0x52, 0x65, 0x49, 0x73, 0x45, 0x72, 0x33, 0x46, 0x73]
  const REISER4: seq<Byte> := [0x52, 0x65, 0x49, 0x73, 0x45, 0x72, 0x34]
  const JFS: seq<Byte> := [0x4a, 0x46, 0x53, 0x31]

  function One(b: bool): nat {
    if b then 1 else 0
  }

  /** How many of the five marks of a FAT boot sector are present. */
  function FatScore(s: Sector): nat {
    One((s[0] == 0xEB && s[2] == 0x90) || s[0] == 0xE9)
    + One(s[510] == 0x55 && s[511] == 0xAA)
    + One(U16(s, 14) == 1 || U16(s, 14) == 32)
    + One(s[16] == 2)
    + One(s[21] == 0xF0 || s[21] >= 0xF8)
  }

  /** Number of clusters, in unsigned 64-bit arithmetic. */
  function ClusterCount(s: Sector): nat
    requires U16(s, 11) > 0 && s[13] > 0
  {
    var sectsize := U16(s, 11);
    var sectcount := if U16(s, 19) == 0 then U32(s, 32) else U16(s, 19);
    var fatsize := if U16(s, 22) == 0 then U32(s, 36) else U16(s, 22);
    var dirsize := (U16(s, 17) * 32 + (sectsize - 1)) / sectsize;
    (sectcount - (U16(s, 14) + s[16] as int * fatsize + dirsize)) % TWO_64 / s[13] as int
  }

  function FatType(s: Sector): nat
    requires U16(s, 11) > 0 && s[13] > 0
  {
    if ClusterCount(s) < 4085 then 0x01 else if ClusterCount(s) < 65525 then 0x0e else 0x0c
  }

  /** Verdict of the first sector, or 0. */
  function SniffBoot(s: Sector): nat {
    if U32(s, 0) == 0x42534658 then 0x83
    else if U16(s, 11) >= 512 && PowerOfTwo(U16(s, 11)) && s[13] > 0 && PowerOfTwo(s[13]) then
      if HasText(s, 3, NTFS) then 0x07 else if FatScore(s) >= 3 then FatType(s) else 0
    else 0
  }

  /** Verdict of the sector 1K into the partition, or 0. */
  function SniffSuper(s: Sector): nat {
    if U16(s, 0) == 0x4442 || U16(s, 0) == 0x2B48 then 0xaf else if U16(s, 56) == 0xEF53 then 0x83 else 0
  }

  predicate IsReiser(s: Sector) {
    HasText(s, 52, REISER) || HasText(s, 52, REISER2) || HasText(s, 52, REISER3)
  }

  function DetectFs(disk: Disk, lba: nat): nat {
    match Read(disk, lba)
    case None => 0
    case Some(s0) =>
      if SniffBoot(s0) != 0 then SniffBoot(s0) else
      match Read(disk, lba + 2)
      case None => 0
      case Some(s2) =>
        if SniffSuper(s2) != 0 then SniffSuper(s2) else
        match Read(disk, lba + 128)
        case None => 0
        case Some(s128) =>
          if HasText(s128, 64, BTRFS) || IsReiser(s128) || HasText(s128, 0, REISER4) then 0x83 else
          match Read(disk, lba + 64)
          case None => 0
          case Some(s64) =>
            if HasText(s64, 0, JFS) then 0x83 else
            match Read(disk, lba + 16)
            case None => 0
            case Some(s16) => if IsReiser(s16) then 0x83 else 0
  }

  lemma {:induction false} DetectRange(disk: Disk, lba: nat)
    ensures DetectFs(disk, lba) in {0, 0x01, 0x07, 0x0c, 0x0e, 0x83, 0xaf}
  {
  }

  /** A boot sector with a sane sector and cluster size: the first test of FAT and NTFS. */
  predicate SaneBootSector(s: Sector) {
    U16(s, 11) >= 512 && PowerOfTwo(U16(s, 11)) && s[13] > 0 && PowerOfTwo(s[13])
  }

  /** Which marks decide for which file system, in the order of precedence. */
  lemma {:induction false} DetectMarks(disk: Disk, lba: nat)
    requires lba + 128 < TWO_64 && lba in disk && lba + 2 in disk
    ensures var boot, super := disk[lba], disk[lba + 2];
      && (U32(boot, 0) == 0x42534658 ==> DetectFs(disk, lba) == 0x83)
      && (U32(boot, 0) != 0x42534658 && SaneBootSector(boot) && boot[3..11] == NTFS ==> DetectFs(disk, lba) == 0x07)
      && (U32(boot, 0) != 0x42534658 && SaneBootSector(boot) && boot[3..11] != NTFS && FatScore(boot) >= 3 ==>
            var n := ClusterCount(boot);
            DetectFs(disk, lba) == if n < 4085 then 0x01 else if n < 65525 then 0x0e else 0x0c)
      && (U32(boot, 0) != 0x42534658 && !SaneBootSector(boot) && U16(super, 0) in {0x4442, 0x2B48} ==>
            DetectFs(disk, lba) == 0xaf)
      && (U32(boot, 0) != 0x42534658 && !SaneBootSector(boot) && U16(super, 0) !in {0x4442, 0x2B48} ==>
            (U16(super, 56) == 0xEF53 ==> DetectFs(disk, lba) == 0x83))
  {
    hide U16, U32, FatScore, ClusterCount, PowerOfTwo, IsReiser;
    assert Read(disk, lba) == Some(disk[lba]) && Read(disk, lba + 2) == Some(disk[lba + 2]);
  }

  /** Detection never looks at sector 0 of the disk. */
  lemma {:induction false} DetectIgnoresMbr(disk: Disk, sec: Sector, lba: nat)
    requires 1 <= lba && lba + 128 < TWO_64
    ensures DetectFs(disk[0 := sec], lba) == DetectFs(disk, lba)
  {
    hide SniffBoot, SniffSuper, HasText, IsReiser;
    var d := disk[0 := sec];
    assert Read(d, lba) == Read(disk, lba) && Read(d, lba + 2) == Read(disk, lba + 2);
    assert Read(d, lba + 128) == Read(disk, lba + 128);
    assert Read(d, lba + 64) == Read(disk, lba + 64) && Read(d, lba + 16) == Read(disk, lba + 16);
  }
}
