/**
 The `gptsync` program itself: globals, buffer and loops, proved to do on the disk exactly
 what the plan says.
 */
module GptsyncTool {
  import opened Basics
  import opened Sectors
  import opened FsDetect
  import opened Mbr
  import opened Gpt
  import opened SyncPlan
  import opened SyncLaws

  class Gptsync {
    var disk: Disk
    const bootCode: seq<Byte>
    const writable: bool
    const sector: array<Byte>
    var mbrParts: seq<Part>
    var gptParts: seq<GptPart>
    var newMbrParts: seq<Part>

    ghost predicate Valid()
      reads this
    {
      sector.Length == 512 && |bootCode| == BOOTCODE_SIZE && Wellformed(disk)
    }

    /** A fresh start: all tables empty. */
    constructor (disk: Disk, bootCode: seq<Byte>, writable: bool)
      requires |bootCode| == BOOTCODE_SIZE && Wellformed(disk)
      ensures Valid() && fresh(sector) && this.disk == disk && this.bootCode == bootCode && this.writable == writable
      ensures mbrParts == [] && gptParts == [] && newMbrParts == []
    {
      this.disk, this.bootCode, this.writable := disk, bootCode, writable;
      sector := new Byte[512];
      mbrParts, gptParts, newMbrParts := [], [], [];
    }

    method ReadSector(lba: nat) returns (status: nat)
      requires Valid()
      modifies sector
      ensures status == 0 <==> Read(disk, lba).Some?
      ensures status == 0 ==> sector[..] == Read(disk, lba).value
    {
      match Read(disk, lba)
      case None => status := 1;
      case Some(s) =>
        for i := 0 to 512
          invariant forall k | 0 <= k < i :: sector[k] == s[k]
        {
          sector[i] := s[i];
        }
        status := 0;
    }

    // ----- reading the tables

    method ReadMbr() returns (status: nat)
      requires Valid() && mbrParts == []
      modifies this`mbrParts, sector
      ensures status == 0 <==> 0 in disk && Readable(disk[0])
      ensures status == 0 ==> mbrParts == UsedSlots(disk[0], 4)
    {
      hide U32, Wellformed;
      status := ReadSector(0);
      if status != 0 {
        return;
      }
      var sec: Sector := sector[..];
      if !Signed(sec) {
        return 1;
      }
      for i := 0 to 4
        invariant forall k | 0 <= k < i :: SlotFlags(sec, k) == 0x00 || SlotFlags(sec, k) == 0x80
      {
        if SlotFlags(sec, i) != 0x00 && SlotFlags(sec, i) != 0x80 {
          return 1;
        }
      }
      var used := false;
      for i := 0 to 4
        invariant !used ==> UsedSlots(sec, i) == []
      {
        if SlotUsed(sec, i) {
          used := true;
          break;
        }
      }
      if !used {
        return 0;
      }
      for i := 0 to 4
        invariant mbrParts == UsedSlots(sec, i)
      {
        if SlotStart(sec, i) == 0 || SlotSize(sec, i) == 0 {
          continue;
        }
        mbrParts := mbrParts + [SlotPart(sec, i)];
      }
      return 0;
    }

    /** Reads a new sector of the entry array whenever an entry starts one. */
    method ReadEntries(firstLba: nat, size: nat, count: nat) returns (status: nat)
      requires Valid() && gptParts == [] && size in {128, 256, 512}
      modifies this`gptParts, sector
      ensures status == 0 <==> Entries(disk, firstLba, size, count).Some?
      ensures status == 0 ==> gptParts == Entries(disk, firstLba, size, count).value
    {
      hide Entry, Read, Wellformed, SectorOf, OffsetIn, SectorsRead;
      NothingRead(size);
      var entryLba := firstLba;
      for i := 0 to count
        invariant Entries(disk, firstLba, size, i) == Some(gptParts)
        invariant entryLba == firstLba + SectorsRead(i, size)
        invariant 0 < i ==> Read(disk, firstLba + SectorOf(i - 1, size)) == Some(sector[..])
      {
        ReadStep(i, size);
        if i * size % 512 == 0 {
          status := ReadSector(entryLba);
          if status != 0 {
            EntriesStop(disk, firstLba, size, i + 1, count);
            return;
          }
          entryLba := entryLba + 1;
        }
        NextRead(i, size);
        var entry := Entry(sector[..], OffsetIn(i, size), i);
        if entry.Some? {
          gptParts := gptParts + [entry.value];
        }
      }
      status := 0;
    }

    method ReadGptTable() returns (status: nat)
      requires Valid() && gptParts == []
      modifies this`gptParts, sector
      ensures status == 0 <==> ReadGpt(disk).Some?
      ensures status == 0 ==> gptParts == ReadGpt(disk).value
    {
      hide Entries, U64, U32;
      status := ReadSector(1);
      if status != 0 {
        return;
      }
      var header: Sector := sector[..];
      if !HasGpt(header) {
        return 0;
      }
      if 512 % EntrySize(header) > 0 || EntrySize(header) > 512 {
        return 0;
      }
      AcceptedSizes(EntrySize(header));
      status := ReadEntries(EntryLba(header), EntrySize(header), EntryCount(header));
    }

    // ----- checks

    method CheckMbr() returns (status: nat)
      ensures status == 0 <==> MbrOk(mbrParts)
    {
      for i := 0 to |mbrParts|
        invariant forall j | 0 <= j < i :: !Extended(mbrParts[j].mbrType) && ClearOfOthers(mbrParts, j, |mbrParts|)
      {
        for k := 0 to |mbrParts|
          invariant ClearOfOthers(mbrParts, i, k)
        {
          if k != i && Overlap(mbrParts[i].start, mbrParts[i].end, mbrParts[k].start, mbrParts[k].end) {
            return 1;
          }
        }
        if Extended(mbrParts[i].mbrType) {
          return 1;
        }
      }
      return 0;
    }

    method CheckGpt() returns (status: nat)
      ensures status == 0 <==> GptOk(gptParts)
    {
      if |gptParts| == 0 {
        return 1;
      }
      var foundDataParts := false;
      for i := 0 to |gptParts|
        invariant forall j | 0 <= j < i :: GptEntryOk(gptParts, j)
        invariant foundDataParts <==> exists j | 0 <= j < i :: IsData(gptParts[j])
      {
        if gptParts[i].end < gptParts[i].start {
          assert !GptEntryOk(gptParts, i);
          return 1;
        }
        for k := 0 to |gptParts|
          invariant forall j | 0 <= j < k && j != i ::
            !Overlap(gptParts[i].start, gptParts[i].end, gptParts[j].start, gptParts[j].end)
        {
          if k != i && Overlap(gptParts[i].start, gptParts[i].end, gptParts[k].start, gptParts[k].end) {
            assert !GptEntryOk(gptParts, i);
            return 1;
          }
        }
        if gptParts[i].gptType.kind == Fatal {
          assert !GptEntryOk(gptParts, i);
          return 1;
        }
        if IsData(gptParts[i]) {
          foundDataParts := true;
        }
      }
      return if foundDataParts then 0 else 1;
    }

    // ----- analysis

    method AssignTypes()
      modifies this`gptParts
      ensures gptParts == Typed(disk, old(gptParts))
    {
      ghost var ps := gptParts;
      var haveEsp := false;
      assert Typed(disk, ps[..0]) == [] && !HasEsp(gptParts[..0]);
      hide TypeFor, Typed, HasEsp;
      for i := 0 to |gptParts|
        invariant |gptParts| == |ps|
        invariant gptParts[..i] == Typed(disk, ps[..i])
        invariant gptParts[i..] == ps[i..]
        invariant haveEsp == HasEsp(gptParts[..i])
      {
        ghost var before := gptParts[..i];
        var p := gptParts[i];
        assert p == ps[i..][0];
        var mbrType := ChooseType(p, haveEsp);
        TypedNext(disk, ps, i);
        gptParts := gptParts[i := p.(mbrType := mbrType)];
        assert gptParts[..i + 1] == before + [p.(mbrType := mbrType)];
        assert gptParts[i + 1..] == ps[i..][1..];
        HasEspNext(before, p.(mbrType := mbrType));
        if mbrType == 0xef {
          haveEsp := true;
        }
      }
      assert ps[..|ps|] == ps && gptParts[..|ps|] == gptParts;
    }

    method ChooseType(p: GptPart, haveEsp: bool) returns (mbrType: nat)
      ensures mbrType == TypeFor(disk, p, haveEsp)
    {
      hide DetectFs;
      mbrType := p.gptType.mbrType;
      if p.gptType.kind == BasicData {
        var detected := DetectFs(disk, p.start);
        mbrType := if detected != 0 then detected else 0x0b;
      } else if mbrType == 0xef {
        var detected := DetectFs(disk, p.start);
        if !haveEsp && (detected == 0x01 || detected == 0x0e || detected == 0x0c) {
          // a legitimate ESP
        } else if detected != 0 {
          mbrType := detected;
        } else if haveEsp {
          mbrType := 0x83;
        }
      }
    }

    method CountActiveParts(parts: seq<Part>) returns (count: nat)
      ensures count == CountActive(parts)
    {
      count := 0;
      for i := 0 to |parts|
        invariant count == CountActive(parts[..i])
      {
        assert parts[..i + 1][..i] == parts[..i];
        if parts[i].active {
          count := count + 1;
        }
      }
      assert parts[..|parts|] == parts;
    }

    method DecideAction() returns (action: Action)
      requires gptParts != []
      ensures action == Decide(mbrParts, gptParts)
    {
      hide CountActive;
      action := Inconclusive;
      if |mbrParts| == 0 {
        action := Rewrite;
      } else if |mbrParts| == 1 && mbrParts[0].mbrType == 0xee {
        action := Rewrite;
      }
      if action == Inconclusive && |mbrParts| > 0 && AppleWay(mbrParts, gptParts) {
        action := Nop;
        if (|mbrParts| != |gptParts| && |gptParts| <= 4) || (|mbrParts| != 4 && |gptParts| > 4) {
          action := Rewrite;
        } else {
          for i := 1 to |mbrParts|
            invariant action == Nop || action == Rewrite
            invariant action == Nop <==> forall k | 1 <= k < i :: Matches(mbrParts[k], gptParts[k])
          {
            if !Matches(mbrParts[i], gptParts[i]) {
              action := Rewrite;
            }
          }
        }
        var countActive := CountActiveParts(mbrParts);
        if countActive != 1 {
          action := Rewrite;
        }
      }
      if action == Inconclusive && |mbrParts| > 0 && mbrParts[0].mbrType == 0xef {
        action := Rewrite;
        for i := 0 to |mbrParts|
          invariant action == Rewrite || action == Inconclusive
          invariant action == Rewrite <==> forall k | 0 <= k < i :: Matches(mbrParts[k], GptAt(gptParts, k))
        {
          if !Matches(mbrParts[i], GptAt(gptParts, i)) {
            action := Inconclusive;
          }
        }
      }
    }

    /** The new table before the active flags are settled. */
    method ComposeTable()
      requires gptParts != []
      modifies this`newMbrParts
      ensures newMbrParts == Compose(mbrParts, gptParts)
    {
      hide MinStart;
      var first := Part(0, 1, 0, 0xee, false);
      var i := 0;
      if gptParts[0].mbrType == 0xef {
        first := first.(end := gptParts[0].end);
        i := 1;
      } else {
        var minStartLba := LowestStart(gptParts);
        first := first.(end := (minStartLba - 1) % TWO_64);
      }
      newMbrParts := [first];
      while i < |gptParts| && |newMbrParts| < 4
        invariant 1 <= |newMbrParts| <= 4 && i == FirstListed(gptParts) + |newMbrParts| - 1 <= |gptParts|
        invariant newMbrParts == ComposeUpTo(mbrParts, gptParts, |newMbrParts|)
        decreases |gptParts| - i
      {
        var entry := MirrorPartition(gptParts[i], |newMbrParts|);
        newMbrParts := newMbrParts + [entry];
        i := i + 1;
      }
    }

    /** An entry for one GPT partition, with what can be kept from the old table. */
    method MirrorPartition(g: GptPart, slot: nat) returns (entry: Part)
      ensures entry == NewEntry(mbrParts, g, slot)
    {
      entry := Part(slot, g.start, g.end, g.mbrType, false);
      for k := 0 to |mbrParts|
        invariant FirstAt(mbrParts, g.start, 0) == FirstAt(mbrParts, g.start, k)
        invariant entry == Part(slot, g.start, g.end, g.mbrType, false)
      {
        if mbrParts[k].start == g.start {
          if entry.mbrType == 0 {
            entry := entry.(mbrType := mbrParts[k].mbrType);
          }
          entry := entry.(active := mbrParts[k].active);
          break;
        }
      }
      if entry.mbrType == 0 {
        entry := entry.(mbrType := 0xc0);
      }
    }

    /** Up to three rounds to get exactly one active partition. */
    method SettleActive()
      modifies this`newMbrParts
      ensures newMbrParts == FixActive(old(newMbrParts))
    {
      hide FixOnce, CountActive;
      ghost var p := newMbrParts;
      Rounds(p);
      for iter := 0 to 3
        invariant newMbrParts == FixedUpTo(p, iter)
      {
        var countActive := CountActiveParts(newMbrParts);
        if countActive == 1 {
          AlreadyFixed(newMbrParts, 0);
          AlreadyFixed(newMbrParts, 1);
          AlreadyFixed(newMbrParts, 2);
          return;
        }
        newMbrParts := RepairRound(newMbrParts, iter, countActive);
      }
    }

    method RepairRound(parts: seq<Part>, iter: nat, countActive: nat) returns (r: seq<Part>)
      requires countActive == CountActive(parts) != 1
      ensures r == FixOnce(parts, iter)
    {
      r := parts;
      if countActive == 0 {
        for i := 0 to |parts|
          invariant FirstCandidate(parts, iter, 0) == FirstCandidate(parts, iter, i)
        {
          if Candidate(parts, i, iter) {
            r := SetActive(parts, i, true);
            return;
          }
        }
      } else if iter == 0 {
        if (parts[0].mbrType == 0xee || parts[0].mbrType == 0xef) && parts[0].active {
          r := SetActive(parts, 0, false);
        }
      } else {
        r := DeactivateLater(parts);
      }
    }

    /** Deactivates all but the first active partition. */
    method DeactivateLater(parts: seq<Part>) returns (r: seq<Part>)
      ensures r == KeepFirst(parts)
    {
      r := parts;
      var countActive := 0;
      for i := 0 to |parts|
        invariant |r| == |parts| && countActive == CountActive(parts[..i])
        invariant r[..i] == KeepFirst(parts[..i]) && r[i..] == parts[i..]
      {
        ghost var before := r[..i];
        assert parts[..i + 1][..i] == parts[..i];
        assert r[i] == parts[i..][0];
        if r[i].active {
          if countActive > 0 {
            r := r[i := r[i].(active := false)];
          }
          countActive := countActive + 1;
        }
        assert r[..i + 1] == before + [r[i]];
        assert r[i + 1..] == parts[i..][1..];
      }
      assert parts[..|parts|] == parts && r[..|parts|] == r;
    }

    // ----- writing

    method PutSlot(i: nat, bytes: seq<Byte>)
      requires Valid() && i < 4 && |bytes| == 16
      modifies sector
      ensures sector[..] == old(sector[..TABLE + 16 * i]) + bytes + old(sector[TABLE + 16 * i + 16..])
    {
      hide Wellformed;
      var at := TABLE + 16 * i;
      for k := 0 to 16
        invariant forall j | 0 <= j < at || at + k <= j < 512 :: sector[j] == old(sector[j])
        invariant forall j | at <= j < at + k :: sector[j] == bytes[j - at]
      {
        sector[at + k] := bytes[k];
      }
    }

    /** Whether any byte of the boot code area is set. */
    method FindBootCode() returns (found: bool)
      requires Valid()
      ensures found <==> HasBootCode(sector[..])
    {
      hide Wellformed;
      found := false;
      for i := 0 to BOOTCODE_SIZE
        invariant forall k | 0 <= k < i :: sector[k] == 0
      {
        if sector[i] != 0 {
          assert sector[..][i] != 0;
          return true;
        }
      }
    }

    method CopyBootCode()
      requires Valid()
      modifies sector
      ensures sector[..] == bootCode + old(sector[BOOTCODE_SIZE..])
    {
      hide Wellformed;
      for i := 0 to BOOTCODE_SIZE
        invariant forall k | 0 <= k < i :: sector[k] == bootCode[k]
        invariant forall k | i <= k < 512 :: sector[k] == old(sector[k])
      {
        sector[i] := bootCode[i];
      }
    }

    /** Fills the four slots of the table in the buffer. */
    method PutTable(ghost head: seq<Byte>, ghost tail: seq<Byte>)
      requires Valid() && |head| == TABLE && |tail| == 64
      requires sector[..] == head + tail + [0x55, 0xaa]
      modifies sector
      ensures sector[..] == head + TableBytes(newMbrParts, 4) + [0x55, 0xaa]
    {
      hide Wellformed, SlotBytes, TableBytes, ActiveFlag, FindSlot, PartBytes;
      EmptyTable(newMbrParts);
      var active: Byte := 0x80;
      assert head + [] + tail[0..] == head + tail;
      for i := 0 to 4
        invariant active == ActiveFlag(newMbrParts, i)
        invariant sector[..] == head + TableBytes(newMbrParts, i) + tail[16 * i..] + [0x55, 0xaa]
      {
        var k := LocateSlot(i);
        var bytes := UNUSED;
        ghost var left := active;
        if k < |newMbrParts| {
          var flags: Byte := 0x00;
          if newMbrParts[k].active {
            flags := active;
            active := 0x00;
          }
          bytes := PartBytes(newMbrParts[k], flags);
        }
        SlotBytesAre(newMbrParts, i, bytes);
        ghost var before := sector[..];
        PutSlot(i, bytes);
        SlotPut(before, head, TableBytes(newMbrParts, i), tail[16 * i..], bytes, i);
        assert tail[16 * i..][16..] == tail[16 * (i + 1)..];
      }
      assert tail[64..] == [];
    }

    method WriteMbr() returns (status: nat)
      requires Valid() && 0 in disk
      modifies this`disk, sector
      ensures status == 0 <==> writable
      ensures disk == if writable then old(disk)[0 := NewSector(old(disk)[0], newMbrParts, bootCode)] else old(disk)
    {
      hide Wellformed, TableBytes, HasBootCode, NewSector;
      ghost var sec: Sector := disk[0];
      status := ReadSector(0);
      assert sector[..] == sec;
      sector[510] := 0x55;
      sector[511] := 0xaa;
      assert sector[..] == sec[..TABLE] + sec[TABLE..510] + [0x55, 0xaa];
      PutTable(sec[..TABLE], sec[TABLE..510]);
      ghost var full: Sector := sector[..];
      var haveBootCode := FindBootCode();
      BootCodeUnchanged(sec, full);
      if !haveBootCode {
        CopyBootCode();
        assert sector[..] == bootCode + full[BOOTCODE_SIZE..];
      }
      SectorIs(sec, newMbrParts, bootCode, sector[..]);
      if !writable {
        return 1;
      }
      disk := disk[0 := sector[..]];
      return 0;
    }

    /** The search for the partition meant for slot i. */
    method LocateSlot(i: nat) returns (k: nat)
      ensures k == FindSlot(newMbrParts, i, 0)
    {
      k := 0;
      while k < |newMbrParts|
        invariant 0 <= k <= |newMbrParts|
        invariant FindSlot(newMbrParts, i, 0) == FindSlot(newMbrParts, i, k)
      {
        if newMbrParts[k].index == i {
          break;
        }
        k := k + 1;
      }
    }

    // ----- the program

    /** Types the partitions, decides, and composes the table if it is to be rewritten. */
    method Analyze() returns (status: nat)
      requires gptParts != []
      modifies this`gptParts, this`newMbrParts
      ensures gptParts == Typed(disk, old(gptParts)) && gptParts != []
      ensures status == 0 <==> Decide(mbrParts, gptParts) != Inconclusive
      ensures newMbrParts ==
        if Decide(mbrParts, gptParts) == Rewrite then FixActive(Compose(mbrParts, gptParts)) else []
    {
      hide Typed, Decide, Compose, FixActive;
      newMbrParts := [];
      AssignTypes();
      var action := DecideAction();
      if action == Nop {
        return 0;
      } else if action == Inconclusive {
        return 1;
      }
      ComposeTable();
      SettleActive();
      return 0;
    }

    /** One run from a fresh start: the disk ends up as planned if the user confirms and the write succeeds. */
    method Run(confirm: bool) returns (status: nat)
      requires Valid() && mbrParts == [] && gptParts == [] && newMbrParts == []
      modifies this, sector
      ensures disk == if confirm && writable then Synced(old(disk), bootCode) else old(disk)
      ensures status == 0 <==> Accepted(old(disk)) && (confirm && Plan(old(disk)).Some? ==> writable)
    {
      hide Wellformed, ReadGpt, Readable, UsedSlots, GptOk, MbrOk, Typed, Decide, Compose, FixActive, NewSector;
      var statusGpt := ReadGptTable();
      var statusMbr := ReadMbr();
      if statusGpt != 0 || statusMbr != 0 {
        return 1;
      }
      status := CheckGpt();
      if status != 0 {
        return;
      }
      status := CheckMbr();
      if status != 0 {
        return;
      }
      GptNotEmpty(gptParts);
      status := Analyze();
      if status != 0 {
        return;
      }
      if |newMbrParts| == 0 {
        NoEmptyPlan(disk);
        return;
      }
      if !confirm {
        return;
      }
      status := WriteMbr();
    }
  }

  /** Sectors read before entry i is looked at. */
  ghost function SectorsRead(i: nat, size: nat): nat
    requires size in {128, 256, 512}
  {
    if i == 0 then 0 else SectorOf(i - 1, size) + 1
  }

  lemma {:induction false} NothingRead(size: nat)
    requires size in {128, 256, 512}
    ensures SectorsRead(0, size) == 0
  {
  }

  lemma {:induction false} NextRead(i: nat, size: nat)
    requires size in {128, 256, 512}
    ensures SectorsRead(i + 1, size) == SectorOf(i, size) + 1
    ensures 0 < i ==> SectorsRead(i, size) == SectorOf(i - 1, size) + 1
  {
  }

  /** Entry i shares its sector with per - 1 others. */
  lemma {:induction false} Place(i: nat, size: nat, per: nat)
    requires (size == 128 && per == 4) || (size == 256 && per == 2) || (size == 512 && per == 1)
    ensures SectorOf(i, size) == i / per && OffsetIn(i, size) == i * size % 512
    ensures i * size % 512 == 0 <==> i % per == 0
  {
    if size == 128 {
      assert i * size == 512 * (i / 4) + 128 * (i % 4);
    } else if size == 256 {
      assert i * size == 512 * (i / 2) + 256 * (i % 2);
    } else {
      assert i * size == 512 * i;
    }
  }

  lemma {:induction false} ReadStep(i: nat, size: nat)
    requires size in {128, 256, 512}
    ensures OffsetIn(i, size) == i * size % 512
    ensures i * size % 512 == 0 ==> SectorsRead(i, size) == SectorOf(i, size)
    ensures i * size % 512 != 0 ==> 0 < i && SectorOf(i, size) == SectorOf(i - 1, size)
  {
    hide SectorOf, OffsetIn;
    var per := if size == 128 then 4 else if size == 256 then 2 else 1;
    Place(i, size, per);
    if i > 0 {
      Place(i - 1, size, per);
    }
  }

  lemma {:induction false} EntriesStop(disk: Disk, lba: nat, size: nat, n: nat, m: nat)
    requires size in {128, 256, 512} && n <= m && Entries(disk, lba, size, n).None?
    ensures Entries(disk, lba, size, m).None?
  {
    hide Entry, Read;
    if n < m {
      EntriesStop(disk, lba, size, n, m - 1);
    }
  }

  predicate ClearOfOthers(ms: seq<Part>, i: nat, n: nat)
    requires i < |ms| && n <= |ms|
  {
    forall k | 0 <= k < n && k != i :: !Overlap(ms[i].start, ms[i].end, ms[k].start, ms[k].end)
  }

  lemma {:induction false} TypedNext(disk: Disk, ps: seq<GptPart>, i: nat)
    requires i < |ps|
    ensures Typed(disk, ps[..i + 1]) ==
      Typed(disk, ps[..i]) + [ps[i].(mbrType := TypeFor(disk, ps[i], HasEsp(Typed(disk, ps[..i]))))]
  {
    hide TypeFor;
    assert ps[..i + 1][..i] == ps[..i];
  }

  lemma {:induction false} HasEspNext(ps: seq<GptPart>, p: GptPart)
    ensures HasEsp(ps + [p]) <==> HasEsp(ps) || p.mbrType == 0xef
  {
    if i :| 0 <= i < |ps| && ps[i].mbrType == 0xef {
      assert (ps + [p])[i].mbrType == 0xef;
    }
    if p.mbrType == 0xef {
      assert (ps + [p])[|ps|].mbrType == 0xef;
    }
  }

  method LowestStart(ps: seq<GptPart>) returns (m: nat)
    requires ps != []
    ensures m == MinStart(ps)
  {
    m := ps[0].start;
    for k := 0 to |ps|
      invariant m == if k == 0 then ps[0].start else MinStart(ps[..k])
    {
      assert k > 0 ==> ps[..k + 1][..k] == ps[..k];
      if m > ps[k].start {
        m := ps[k].start;
      }
    }
    assert ps[..|ps|] == ps;
  }

  ghost function FixedUpTo(parts: seq<Part>, n: nat): seq<Part>
    requires n <= 3
  {
    if n == 0 then parts else FixOnce(FixedUpTo(parts, n - 1), n - 1)
  }

  lemma {:induction false} Rounds(parts: seq<Part>)
    ensures FixedUpTo(parts, 0) == parts
    ensures FixedUpTo(parts, 1) == FixOnce(parts, 0)
    ensures FixedUpTo(parts, 2) == FixOnce(FixOnce(parts, 0), 1)
    ensures FixedUpTo(parts, 3) == FixActive(parts)
  {
  }

  /** A table with one active partition passes through every remaining round. */
  lemma {:induction false} AlreadyFixed(parts: seq<Part>, iter: nat)
    requires CountActive(parts) == 1
    ensures FixOnce(parts, iter) == parts
  {
  }

  lemma {:induction false} SlotBytesAre(parts: seq<Part>, i: nat, bytes: seq<Byte>)
    requires var k := FindSlot(parts, i, 0);
      bytes == if k == |parts| then UNUSED
               else PartBytes(parts[k], if parts[k].active then ActiveFlag(parts, i) else 0x00)
    ensures bytes == SlotBytes(parts, i)
    ensures TableBytes(parts, i + 1) == TableBytes(parts, i) + bytes
    ensures var k := FindSlot(parts, i, 0);
      ActiveFlag(parts, i + 1) == if k < |parts| && parts[k].active then 0x00 else ActiveFlag(parts, i)
  {
  }

  lemma {:induction false} EmptyTable(parts: seq<Part>)
    ensures TableBytes(parts, 0) == [] && ActiveFlag(parts, 0) == 0x80
  {
  }

  /** Replacing the first 16 bytes after the finished slots. */
  lemma {:induction false} SlotPut(before: seq<Byte>, head: seq<Byte>, table: seq<Byte>, rest: seq<Byte>,
                                   bytes: seq<Byte>, i: nat)
    requires |head| == TABLE && |table| == 16 * i && |rest| >= 16 && |bytes| == 16
    requires before == head + table + rest + [0x55, 0xaa]
    ensures before[..TABLE + 16 * i] + bytes + before[TABLE + 16 * i + 16..] ==
      head + (table + bytes) + rest[16..] + [0x55, 0xaa]
  {
  }

  lemma {:induction false} BootCodeUnchanged(sec: Sector, new': Sector)
    requires new'[..TABLE] == sec[..TABLE]
    ensures HasBootCode(new') == HasBootCode(sec)
  {
  }

  lemma {:induction false} SectorIs(sec: Sector, parts: seq<Part>, bootCode: seq<Byte>, new': seq<Byte>)
    requires |bootCode| == BOOTCODE_SIZE
    requires var full := sec[..TABLE] + TableBytes(parts, 4) + [0x55, 0xaa];
      new' == if HasBootCode(sec) then full else bootCode + full[BOOTCODE_SIZE..]
    ensures new' == NewSector(sec, parts, bootCode)
  {
  }

  lemma {:induction false} GptNotEmpty(ps: seq<GptPart>)
    requires GptOk(ps)
    ensures ps != []
  {
  }

  lemma {:induction false} NoEmptyPlan(disk: Disk)
    requires Wellformed(disk)
    ensures Plan(disk).Some? ==> Plan(disk).value != []
  {
  }
}
