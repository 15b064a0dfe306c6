/**
 What a planned table guarantees, and why running `gptsync` twice writes at most once.
 */
module SyncLaws {
  import opened Basics
  import opened Sectors
  import opened FsDetect
  import opened Mbr
  import opened Gpt
  import opened SyncPlan

  // ----- types

  /** MBR types a GPT partition can be given. */
  predicate Assignable(t: nat) {
    t in {0x00, 0x01, 0x07, 0x0b, 0x0c, 0x0e, 0x82, 0x83, 0x8e, 0xa5, 0xa8, 0xa9, 0xab, 0xac, 0xaf, 0xbf, 0xef, 0xfd}
  }

  lemma {:induction false} TypeForLaws(disk: Disk, p: GptPart, haveEsp: bool)
    requires TypeAllowed(p.gptType)
    ensures Assignable(TypeFor(disk, p, haveEsp))
    ensures TypeFor(disk, p, haveEsp) == 0xef ==> !haveEsp && p.gptType.kind == System
  {
  }

  ghost predicate AllAllowed(ps: seq<GptPart>) {
    forall i | 0 <= i < |ps| :: TypeAllowed(ps[i].gptType) && ps[i].start < TWO_64 && ps[i].end < TWO_64
  }

  /** Typing changes nothing but the MBR type, and leaves at most one partition typed 0xef. */
  lemma {:induction false} TypedLaws(disk: Disk, ps: seq<GptPart>)
    requires AllAllowed(ps)
    ensures forall i | 0 <= i < |ps| :: Typed(disk, ps)[i] == ps[i].(mbrType := Typed(disk, ps)[i].mbrType)
    ensures forall i | 0 <= i < |ps| :: Assignable(Typed(disk, ps)[i].mbrType)
    ensures forall i | 0 <= i < |ps| :: Typed(disk, ps)[i].mbrType == 0xef ==> ps[i].gptType.kind == System
    ensures forall i, j | 0 <= i < j < |ps| && Typed(disk, ps)[i].mbrType == 0xef :: Typed(disk, ps)[j].mbrType != 0xef
  {
    hide TypeFor, TypeAllowed, KnownOrDummy, Assignable;
    if ps != [] {
      var init := ps[..|ps| - 1];
      TypedLaws(disk, init);
      TypeForLaws(disk, ps[|ps| - 1], HasEsp(Typed(disk, init)));
    }
  }

  lemma {:induction false} TypedPrefix(disk: Disk, ps: seq<GptPart>, i: nat)
    requires i < |ps|
    ensures Typed(disk, ps)[..i] == Typed(disk, ps[..i])
    ensures Typed(disk, ps)[i] == ps[i].(mbrType := TypeFor(disk, ps[i], HasEsp(Typed(disk, ps[..i]))))
  {
    hide TypeFor, HasEsp;
    var init := ps[..|ps| - 1];
    assert Typed(disk, ps)[..|ps| - 1] == Typed(disk, init);
    if i < |ps| - 1 {
      TypedPrefix(disk, init, i);
      assert init[..i] == ps[..i] && init[i] == ps[i];
      assert Typed(disk, ps)[..i] == Typed(disk, init)[..i] && Typed(disk, ps)[i] == Typed(disk, init)[i];
    }
  }

  /**
   How each partition is typed. A basic data partition goes by what is found in it, with FAT32 when nothing is. An EFI
   system partition stays one if none came before it and what is found is FAT or nothing; otherwise it goes by what
   is found, with Linux when nothing is. Any other has its type from the table.
   */
  lemma {:induction false} TypedExactly(disk: Disk, ps: seq<GptPart>, i: nat)
    requires i < |ps|
    ensures var gs, d, known := Typed(disk, ps), DetectFs(disk, ps[i].start), ps[i].gptType;
      var first := forall j | 0 <= j < i :: gs[j].mbrType != 0xef;
      && (known.kind == BasicData && d != 0 ==> gs[i].mbrType == d)
      && (known.kind == BasicData && d == 0 ==> gs[i].mbrType == 0x0b)
      && (known.kind != BasicData && known.mbrType == 0xef && first && d in {0, 0x01, 0x0c, 0x0e} ==>
            gs[i].mbrType == 0xef)
      && (known.kind != BasicData && known.mbrType == 0xef && d != 0 && !(first && d in {0x01, 0x0c, 0x0e}) ==>
            gs[i].mbrType == d)
      && (known.kind != BasicData && known.mbrType == 0xef && !first && d == 0 ==> gs[i].mbrType == 0x83)
      && (known.kind != BasicData && known.mbrType != 0xef ==> gs[i].mbrType == known.mbrType)
  {
    hide DetectFs, Typed;
    TypedPrefix(disk, ps, i);
    var gs := Typed(disk, ps);
    var before := Typed(disk, ps[..i]);
    assert forall j | 0 <= j < i :: before[j] == gs[j];
  }

  // ----- composing

  lemma {:induction false} ComposedEntry(ms: seq<Part>, ps: seq<GptPart>, n: nat, j: nat)
    requires ps != [] && 1 <= n && FirstListed(ps) + n - 1 <= |ps| && j < n
    ensures j == 0 ==> ComposeUpTo(ms, ps, n)[j] == Protective(ps)
    ensures j > 0 ==> ComposeUpTo(ms, ps, n)[j] == NewEntry(ms, ps[FirstListed(ps) + j - 1], j)
  {
    hide NewEntry, Protective;
    if j < n - 1 {
      ComposedEntry(ms, ps, n - 1, j);
    }
  }

  /** What the first old entry at the start of a partition, number k, hands on to its new entry. */
  lemma {:induction false} NewEntryKeeps(ms: seq<Part>, g: GptPart, slot: nat, k: nat)
    requires k < |ms| && ms[k].start == g.start && forall i | 0 <= i < k :: ms[i].start != g.start
    ensures var e := NewEntry(ms, g, slot);
      && e.active == ms[k].active
      && e.mbrType == if g.mbrType != 0 then g.mbrType else if ms[k].mbrType != 0 then ms[k].mbrType else 0xc0
  {
    FirstAtIs(ms, g.start, 0, k);
  }

  /** Without an old entry at its start a partition is not active. */
  lemma {:induction false} NewEntryFresh(ms: seq<Part>, g: GptPart, slot: nat)
    requires forall i | 0 <= i < |ms| :: ms[i].start != g.start
    ensures var e := NewEntry(ms, g, slot);
      !e.active && e.mbrType == if g.mbrType != 0 then g.mbrType else 0xc0
  {
  }

  lemma {:induction false} FirstAtIs(ms: seq<Part>, start: nat, from: nat, k: nat)
    requires from <= k < |ms| && ms[k].start == start && forall i | from <= i < k :: ms[i].start != start
    ensures FirstAt(ms, start, from) == k
    decreases k - from
  {
    if from < k {
      FirstAtIs(ms, start, from + 1, k);
    }
  }

  // ----- counting active partitions

  lemma {:induction false} CountZero(ms: seq<Part>)
    ensures CountActive(ms) == 0 <==> forall i | 0 <= i < |ms| :: !ms[i].active
  {
    if ms != [] {
      CountZero(ms[..|ms| - 1]);
      assert forall i | 0 <= i < |ms| - 1 :: ms[..|ms| - 1][i] == ms[i];
    }
  }

  /** A count of one means exactly one active position. */
  lemma {:induction false} CountOne(ms: seq<Part>)
    ensures CountActive(ms) == 1 <==> exists i | 0 <= i < |ms| :: OnlyActive(ms, i)
  {
    if ms != [] {
      var init, last := ms[..|ms| - 1], |ms| - 1;
      CountOne(init);
      CountZero(init);
      if CountActive(ms) == 1 {
        if ms[last].active {
          assert OnlyActive(ms, last);
        } else {
          var i :| 0 <= i < |init| && OnlyActive(init, i);
          assert OnlyActive(ms, i);
        }
      }
      if i :| 0 <= i < |ms| && OnlyActive(ms, i) {
        if i < last {
          assert OnlyActive(init, i);
        }
      }
    }
  }

  predicate OnlyActive(ms: seq<Part>, i: nat)
    requires i < |ms|
  {
    forall j | 0 <= j < |ms| :: ms[j].active <==> j == i
  }

  lemma {:induction false} SetActiveCounts(parts: seq<Part>, k: nat)
    requires k < |parts| && CountActive(parts) == 0
    ensures CountActive(SetActive(parts, k, true)) == 1
  {
    CountZero(parts);
    assert OnlyActive(SetActive(parts, k, true), k);
    CountOne(SetActive(parts, k, true));
  }

  lemma {:induction false} KeepFirstCounts(parts: seq<Part>)
    ensures CountActive(KeepFirst(parts)) == if CountActive(parts) == 0 then 0 else 1
  {
    if parts != [] {
      KeepFirstCounts(parts[..|parts| - 1]);
      assert KeepFirst(parts)[..|parts| - 1] == KeepFirst(parts[..|parts| - 1]);
    }
  }

  lemma {:induction false} KeepFirstLaws(parts: seq<Part>)
    ensures SameButActive(parts, KeepFirst(parts))
    ensures forall i | 0 <= i < |parts| :: KeepFirst(parts)[i].active ==> parts[i].active
  {
    hide CountActive;
    if parts != [] {
      KeepFirstLaws(parts[..|parts| - 1]);
    }
  }

  /** Two tables that differ in active flags only. */
  predicate SameButActive(s: seq<Part>, t: seq<Part>) {
    |s| == |t| && forall i | 0 <= i < |s| :: t[i] == s[i].(active := t[i].active)
  }

  lemma {:induction false} FixOnceLaws(parts: seq<Part>, iter: nat)
    requires parts != [] && parts[0].mbrType == 0xee && !parts[0].active
    ensures var r := FixOnce(parts, iter);
      SameButActive(parts, r) && !r[0].active
    ensures CountActive(parts) == 1 ==> FixOnce(parts, iter) == parts
    ensures CountActive(parts) > 1 && iter > 0 ==> CountActive(FixOnce(parts, iter)) == 1
    ensures CountActive(parts) > 1 && iter == 0 ==> FixOnce(parts, iter) == parts
    ensures CountActive(parts) == 0 ==> FixOnce(parts, iter) == parts || CountActive(FixOnce(parts, iter)) == 1
    ensures CountActive(parts) == 0 && iter >= 2 && |parts| >= 2 ==> CountActive(FixOnce(parts, iter)) == 1
  {
    var k := FirstCandidate(parts, iter, 0);
    if CountActive(parts) == 0 {
      if iter >= 2 && |parts| >= 2 {
        assert Candidate(parts, 1, iter);
      }
      if k < |parts| {
        assert k != 0;
        SetActiveCounts(parts, k);
      }
    } else if CountActive(parts) > 1 {
      KeepFirstLaws(parts);
      KeepFirstCounts(parts);
    }
  }

  /** The repair ends with exactly one active partition, never the protective one, and changes nothing else. */
  lemma {:induction false} FixActiveLaws(parts: seq<Part>)
    requires |parts| >= 2 && parts[0].mbrType == 0xee && !parts[0].active
    ensures SameButActive(parts, FixActive(parts)) && !FixActive(parts)[0].active
    ensures CountActive(FixActive(parts)) == 1
  {
    hide FixOnce, CountActive;
    var r0 := FixOnce(parts, 0);
    var r1 := FixOnce(r0, 1);
    FixOnceLaws(parts, 0);
    FixOnceLaws(r0, 1);
    FixOnceLaws(r1, 2);
  }

  // ----- which partition is active

  /** Partition i is the first with the property. */
  ghost predicate FirstWith(parts: seq<Part>, has: Part -> bool, i: nat) {
    i < |parts| && has(parts[i]) && forall j | 0 <= j < i :: !has(parts[j])
  }

  ghost predicate NoneWith(parts: seq<Part>, has: Part -> bool) {
    forall j | 0 <= j < |parts| :: !has(parts[j])
  }

  lemma {:induction false} KeepFirstChooses(parts: seq<Part>, i: nat)
    requires FirstWith(parts, (p: Part) => p.active, i)
    ensures OnlyActive(KeepFirst(parts), i)
  {
    var init := parts[..|parts| - 1];
    CountZero(init);
    if i < |init| {
      assert FirstWith(init, (p: Part) => p.active, i);
      KeepFirstChooses(init, i);
    } else {
      NothingActive(init);
    }
  }

  lemma {:induction false} NothingActive(parts: seq<Part>)
    requires forall j | 0 <= j < |parts| :: !parts[j].active
    ensures KeepFirst(parts) == parts
  {
    hide CountActive;
    if parts != [] {
      NothingActive(parts[..|parts| - 1]);
    }
  }

  /** One round on a table without active partitions activates the first candidate, if there is one. */
  lemma {:induction false} FixOnceChooses(parts: seq<Part>, iter: nat, i: nat)
    requires forall j | 0 <= j < |parts| :: !parts[j].active
    requires i <= |parts| && (i < |parts| ==> Candidate(parts, i, iter))
    requires forall j | 0 <= j < i :: !Candidate(parts, j, iter)
    ensures i < |parts| ==> OnlyActive(FixOnce(parts, iter), i)
    ensures i == |parts| ==> FixOnce(parts, iter) == parts
  {
    hide Candidate;
    CountZero(parts);
    var k := FirstCandidate(parts, iter, 0);
    assert k == i;
  }

  lemma {:induction false} SettledStays(parts: seq<Part>, iter: nat, i: nat)
    requires i < |parts| && OnlyActive(parts, i)
    ensures FixOnce(parts, iter) == parts
  {
    CountOne(parts);
  }

  /** An active partition stays active, the first of them if there are several. */
  lemma {:induction false} ActiveKept(parts: seq<Part>, i: nat)
    requires |parts| >= 2 && parts[0].mbrType == 0xee && !parts[0].active
    requires FirstWith(parts, (p: Part) => p.active, i)
    ensures OnlyActive(FixActive(parts), i)
  {
    CountZero(parts);
    FixOnceLaws(parts, 0);
    if CountActive(parts) == 1 {
      CountOne(parts);
      var a :| 0 <= a < |parts| && OnlyActive(parts, a);
      SettledStays(parts, 0, a);
      SettledStays(parts, 1, a);
      SettledStays(parts, 2, a);
    } else {
      KeepFirstChooses(parts, i);
      SettledStays(KeepFirst(parts), 2, i);
    }
  }

  /**
   Without an active partition, the first that systems boot from becomes active, else the first Linux one, else the
   first after the protective entry.
   */
  lemma {:induction false} ActiveChosen(parts: seq<Part>, i: nat)
    requires |parts| >= 2 && parts[0].mbrType == 0xee && NoneWith(parts, (p: Part) => p.active)
    ensures FirstWith(parts, (p: Part) => p.mbrType in {0xa8, 0xab, 0xac, 0xaf, 0x07, 0x0b, 0x0c}, i) ==>
      OnlyActive(FixActive(parts), i)
    ensures NoneWith(parts, (p: Part) => p.mbrType in {0xa8, 0xab, 0xac, 0xaf, 0x07, 0x0b, 0x0c}) ==>
      (FirstWith(parts, (p: Part) => p.mbrType == 0x83, i) ==> OnlyActive(FixActive(parts), i))
    ensures NoneWith(parts, (p: Part) => p.mbrType in {0xa8, 0xab, 0xac, 0xaf, 0x07, 0x0b, 0x0c, 0x83}) ==>
      OnlyActive(FixActive(parts), 1)
  {
    hide FixOnce;
    if FirstWith(parts, (p: Part) => p.mbrType in {0xa8, 0xab, 0xac, 0xaf, 0x07, 0x0b, 0x0c}, i) {
      BootChosen(parts, i);
    }
    if NoneWith(parts, (p: Part) => p.mbrType in {0xa8, 0xab, 0xac, 0xaf, 0x07, 0x0b, 0x0c}) {
      FixOnceChooses(parts, 0, |parts|);
      if FirstWith(parts, (p: Part) => p.mbrType == 0x83, i) {
        LinuxChosen(parts, i);
      }
    }
    if NoneWith(parts, (p: Part) => p.mbrType in {0xa8, 0xab, 0xac, 0xaf, 0x07, 0x0b, 0x0c, 0x83}) {
      FixOnceChooses(parts, 0, |parts|);
      FixOnceChooses(parts, 1, |parts|);
      FixOnceChooses(parts, 2, 1);
    }
  }

  lemma {:induction false} BootChosen(parts: seq<Part>, i: nat)
    requires forall j | 0 <= j < |parts| :: !parts[j].active
    requires FirstWith(parts, (p: Part) => p.mbrType in {0xa8, 0xab, 0xac, 0xaf, 0x07, 0x0b, 0x0c}, i)
    ensures OnlyActive(FixActive(parts), i)
  {
    FixOnceChooses(parts, 0, i);
    hide FixOnce;
    SettledStays(FixOnce(parts, 0), 1, i);
    SettledStays(FixOnce(parts, 0), 2, i);
  }

  lemma {:induction false} LinuxChosen(parts: seq<Part>, i: nat)
    requires forall j | 0 <= j < |parts| :: !parts[j].active
    requires FixOnce(parts, 0) == parts && FirstWith(parts, (p: Part) => p.mbrType == 0x83, i)
    ensures OnlyActive(FixActive(parts), i)
  {
    FixOnceChooses(parts, 1, i);
    hide FixOnce;
    SettledStays(FixOnce(parts, 1), 2, i);
  }

  // ----- the planned table

  ghost predicate GoodMbrTypes(ms: seq<Part>) {
    forall i | 0 <= i < |ms| :: ms[i].mbrType < 256 && !Extended(ms[i].mbrType)
  }

  ghost predicate AllAssignable(gs: seq<GptPart>) {
    forall i | 0 <= i < |gs| :: Assignable(gs[i].mbrType)
  }

  lemma {:induction false} NewEntryLaws(ms: seq<Part>, g: GptPart, slot: nat)
    requires GoodMbrTypes(ms) && Assignable(g.mbrType)
    ensures var e := NewEntry(ms, g, slot);
      && e.index == slot && e.start == g.start && e.end == g.end
      && 0 < e.mbrType < 256 && !Extended(e.mbrType)
      && (g.mbrType != 0 ==> e.mbrType == g.mbrType)
  {
  }

  /** What the tool promises about a table it composes. */
  ghost predicate TableOk(gs: seq<GptPart>, t: seq<Part>)
    requires gs != []
  {
    && 2 <= |t| <= 4 && |t| == TableSize(gs)
    && CountActive(t) == 1 && !t[0].active
    && t[0] == Protective(gs)
    && (forall j | 1 <= j < |t| ::
          && t[j].index == j
          && 0 < t[j].mbrType < 256 && !Extended(t[j].mbrType)
          && FirstListed(gs) + j - 1 < |gs|
          && Matches(t[j], gs[FirstListed(gs) + j - 1]))
  }

  lemma {:induction false} TableLaws(ms: seq<Part>, gs: seq<GptPart>)
    requires gs != [] && FirstListed(gs) < |gs| && GoodMbrTypes(ms) && AllAssignable(gs)
    ensures TableOk(gs, FixActive(Compose(ms, gs)))
  {
    hide NewEntry, FixActive, CountActive, GoodMbrTypes, Assignable, Protective, Extended;
    var c := Compose(ms, gs);
    var n := TableSize(gs);
    ComposedEntry(ms, gs, n, 0);
    ProtectiveInactive(gs);
    FixActiveLaws(c);
    forall j | 1 <= j < n
      ensures c[j].index == j && 0 < c[j].mbrType < 256 && !Extended(c[j].mbrType)
      ensures Matches(c[j], gs[FirstListed(gs) + j - 1])
    {
      ComposedEntry(ms, gs, n, j);
      NewEntryLaws(ms, gs[FirstListed(gs) + j - 1], j);
    }
  }

  lemma {:induction false} ProtectiveInactive(gs: seq<GptPart>)
    requires gs != []
    ensures Protective(gs).mbrType == 0xee && !Protective(gs).active
  {
  }

  lemma {:induction false} UsedSlotsTypes(sec: Sector, n: nat)
    requires n <= 4
    ensures forall i | 0 <= i < |UsedSlots(sec, n)| :: UsedSlots(sec, n)[i].mbrType < 256
  {
    hide U32;
    if n > 0 {
      UsedSlotsTypes(sec, n - 1);
    }
  }

  /** Everything a plan rests on. */
  lemma {:induction false} PlanFacts(disk: Disk) returns (ms: seq<Part>, ps: seq<GptPart>, gs: seq<GptPart>)
    requires Wellformed(disk) && Plan(disk).Some?
    ensures 0 in disk && Readable(disk[0]) && ms == UsedSlots(disk[0], 4)
    ensures ReadGpt(disk) == Some(ps) && gs == Typed(disk, ps)
    ensures GptOk(ps) && AllAllowed(ps) && MbrOk(ms) && GoodMbrTypes(ms) && AllAssignable(gs)
    ensures |gs| == |ps| && gs != [] && FirstListed(gs) < |gs|
    ensures forall i | 0 <= i < |ps| :: gs[i] == ps[i].(mbrType := gs[i].mbrType)
    ensures Plan(disk).value == FixActive(Compose(ms, gs))
  {
    hide ReadGpt, Typed, Decide, Compose, FixActive, UsedSlots, Readable, Assignable, TypeAllowed, KnownOrDummy;
    ps := ReadGpt(disk).value;
    ms := UsedSlots(disk[0], 4);
    gs := Typed(disk, ps);
    ReadAllowed(disk);
    assert forall i | 0 <= i < |ps| :: ps[i] in ps;
    TypedLaws(disk, ps);
    UsedSlotsTypes(disk[0], 4);
    var i :| 0 <= i < |ps| && IsData(ps[i]);
  }

  /**
   Every table written has 2 to 4 entries, one active partition that is not the protective one, and no extended type.
   */
  lemma {:induction false} PlannedTable(disk: Disk)
    requires Wellformed(disk) && Plan(disk).Some?
    ensures ReadGpt(disk).Some? && ReadGpt(disk).value != []
    ensures TableOk(Typed(disk, ReadGpt(disk).value), Plan(disk).value)
    ensures forall j | 0 <= j < |Plan(disk).value| :: Plan(disk).value[j].mbrType !in {0x05, 0x0f, 0x85}
  {
    hide Plan, TableOk, ReadGpt, Typed, Compose, FixActive;
    var ms, ps, gs := PlanFacts(disk);
    TableLaws(ms, gs);
    NoExtendedType(gs, Plan(disk).value);
  }

  lemma {:induction false} NoExtendedType(gs: seq<GptPart>, t: seq<Part>)
    requires gs != [] && TableOk(gs, t)
    ensures forall j | 0 <= j < |t| :: t[j].mbrType !in {0x05, 0x0f, 0x85}
  {
    hide CountActive, MinStart;
  }

  /**
   What a disk must be like before anything is written to it: known partition types only, one of them for data, no
   extended entries, and no block in two partitions of either table.
   */
  lemma {:induction false} WrittenOnlyIfSane(disk: Disk, block: nat)
    requires Wellformed(disk) && Plan(disk).Some?
    ensures ReadGpt(disk).Some? && 0 in disk
    ensures var ps, ms := ReadGpt(disk).value, UsedSlots(disk[0], 4);
      && (forall i | 0 <= i < |ps| :: ps[i].start <= ps[i].end && ps[i].gptType.kind in {System, Data, BasicData})
      && (exists i | 0 <= i < |ps| :: ps[i].gptType.kind in {Data, BasicData})
      && (forall i, j | 0 <= i < j < |ps| && ps[i].start <= block <= ps[i].end :: !(ps[j].start <= block <= ps[j].end))
      && (forall i | 0 <= i < |ms| :: ms[i].mbrType !in {0x05, 0x0f, 0x85})
      && (forall i, j | 0 <= i < j < |ms| && ms[i].start <= block <= ms[i].end :: !(ms[j].start <= block <= ms[j].end))
  {
    hide Plan, ReadGpt, UsedSlots, Readable, Typed, Compose, FixActive;
    var ms, ps, gs := PlanFacts(disk);
    forall i | 0 <= i < |ps|
      ensures ps[i].start <= ps[i].end && ps[i].gptType.kind in {System, Data, BasicData}
      ensures forall j | i < j < |ps| && ps[i].start <= block <= ps[i].end :: !(ps[j].start <= block <= ps[j].end)
    {
      assert GptEntryOk(ps, i);
    }
    var d :| 0 <= d < |ps| && IsData(ps[d]);
  }

  // ----- when a boot record is overwritten

  /** How many GPT partitions an Apple-style table mirrors, the ESP included. */
  function Mirrored(gs: seq<GptPart>): nat {
    if |gs| < 4 then |gs| else 4
  }

  /** From entry `from` on, entries have the bounds of the GPT partition at their index, and its type if known. */
  predicate Mirrors(ms: seq<Part>, gs: seq<GptPart>, from: nat) {
    && |ms| <= |gs|
    && (forall i | from <= i < |ms| :: ms[i].start == gs[i].start && ms[i].end == gs[i].end)
    && (forall i | from <= i < |ms| && gs[i].mbrType != 0 :: ms[i].mbrType == gs[i].mbrType)
  }

  /** The first entry is a protective one from block 1 to the end of a first EFI system partition. */
  predicate CoversEsp(ms: seq<Part>, gs: seq<GptPart>)
    requires ms != [] && gs != []
  {
    ms[0].mbrType == 0xee && ms[0].start == 1 && gs[0].mbrType == 0xef && ms[0].end == gs[0].end
  }

  /** Behind such an entry the record mirrors as many partitions as it can, with exactly one active. */
  predicate UpToDate(ms: seq<Part>, gs: seq<GptPart>) {
    |ms| == Mirrored(gs) && Mirrors(ms, gs, 1) && exists i | 0 <= i < |ms| :: OnlyActive(ms, i)
  }

  /**
   The records that are overwritten: an empty one, a lone protective entry, one that covers the ESP but is out of
   date, and an exact mirror that starts with the ESP itself. Every other record is left alone.
   */
  predicate Overwritten(ms: seq<Part>, gs: seq<GptPart>)
    requires gs != []
  {
    || ms == []
    || (|ms| == 1 && ms[0].mbrType == 0xee)
    || (CoversEsp(ms, gs) && !UpToDate(ms, gs))
    || (ms[0].mbrType == 0xef && Mirrors(ms, gs, 0))
  }

  lemma {:induction false} DecideExactly(ms: seq<Part>, gs: seq<GptPart>)
    requires gs != [] && forall i | 0 <= i < |ms| :: 0 < ms[i].start
    ensures Decide(ms, gs) == Rewrite <==> Overwritten(ms, gs)
    ensures Decide(ms, gs) == Nop <==> |ms| >= 2 && CoversEsp(ms, gs) && UpToDate(ms, gs)
  {
    hide CountActive;
    CountOne(ms);
    if |ms| >= 2 {
      assert InSync(ms, gs) <==> UpToDate(ms, gs) by { InSyncExactly(ms, gs); }
      MirrorExactly(ms, gs);
    }
    hide InSync, UpToDate, Mirrors, GptAt, Matches;
  }

  lemma {:induction false} InSyncExactly(ms: seq<Part>, gs: seq<GptPart>)
    ensures InSync(ms, gs) <==> UpToDate(ms, gs)
  {
    hide CountActive, OnlyActive;
    CountOne(ms);
    if |ms| == Mirrored(gs) {
      assert (forall i | 1 <= i < |ms| :: Matches(ms[i], gs[i])) <==> Mirrors(ms, gs, 1);
    }
  }

  lemma {:induction false} MirrorExactly(ms: seq<Part>, gs: seq<GptPart>)
    requires forall i | 0 <= i < |ms| :: 0 < ms[i].start
    ensures (forall i | 0 <= i < |ms| :: Matches(ms[i], GptAt(gs, i))) <==> Mirrors(ms, gs, 0)
  {
    if forall i | 0 <= i < |ms| :: Matches(ms[i], GptAt(gs, i)) {
      assert |gs| < |ms| ==> Matches(ms[|gs|], GptAt(gs, |gs|));
      forall i | 0 <= i < |ms|
        ensures ms[i].start == gs[i].start && ms[i].end == gs[i].end
        ensures gs[i].mbrType != 0 ==> ms[i].mbrType == gs[i].mbrType
      {
        assert Matches(ms[i], GptAt(gs, i));
      }
    }
  }

  lemma {:induction false} UsedSlotsStart(sec: Sector, n: nat)
    requires n <= 4
    ensures forall i | 0 <= i < |UsedSlots(sec, n)| :: 0 < UsedSlots(sec, n)[i].start <= UsedSlots(sec, n)[i].end
  {
    hide U32;
    if n > 0 {
      UsedSlotsStart(sec, n - 1);
    }
  }

  /** A run plans a write exactly over a readable record that passes the checks and is one of those. */
  lemma {:induction false} PlanExactly(disk: Disk)
    requires Wellformed(disk)
    ensures Plan(disk).Some? <==>
      && ReadGpt(disk).Some? && 0 in disk && Readable(disk[0])
      && GptOk(ReadGpt(disk).value) && MbrOk(UsedSlots(disk[0], 4)) && Typed(disk, ReadGpt(disk).value) != []
      && Overwritten(UsedSlots(disk[0], 4), Typed(disk, ReadGpt(disk).value))
  {
    hide ReadGpt, Typed, Readable, MbrOk, GptOk, UsedSlots, Decide, Overwritten, FixActive, Compose;
    if ReadGpt(disk).Some? && 0 in disk && GptOk(ReadGpt(disk).value) {
      DataNotEmpty(ReadGpt(disk).value);
      UsedSlotsStart(disk[0], 4);
      DecideExactly(UsedSlots(disk[0], 4), Typed(disk, ReadGpt(disk).value));
    }
  }

  lemma {:induction false} DataNotEmpty(ps: seq<GptPart>)
    requires GptOk(ps)
    ensures ps != []
  {
  }

  /** A boot record that starts with anything but a protective entry or an ESP is never touched. */
  lemma {:induction false} ForeignRecordKept(disk: Disk, bootCode: seq<Byte>)
    requires Wellformed(disk) && |bootCode| == BOOTCODE_SIZE && 0 in disk
    requires UsedSlots(disk[0], 4) != [] && UsedSlots(disk[0], 4)[0].mbrType !in {0xee, 0xef}
    ensures Synced(disk, bootCode) == disk
  {
    hide ReadGpt, Typed, Readable, MbrOk, GptOk, UsedSlots, Plan;
    PlanExactly(disk);
  }

  /**
   A record found in sync has the bounds of the table a run would compose for it, its known types, and, unless the
   protective entry is marked active, the same active partition.
   */
  lemma {:induction false} InSyncMeans(ms: seq<Part>, gs: seq<GptPart>)
    requires gs != [] && Decide(ms, gs) == Nop && MbrOk(ms) && AllAssignable(gs) && GoodMbrTypes(ms)
    requires forall i | 0 <= i < |ms| :: 0 < ms[i].start <= ms[i].end
    ensures var t := FixActive(Compose(ms, gs));
      && |t| == |ms|
      && (forall i | 0 <= i < |ms| :: t[i].start == ms[i].start && t[i].end == ms[i].end)
      && (forall i | 0 <= i < |ms| && ms[i].mbrType != 0 :: t[i].mbrType == ms[i].mbrType)
      && (!ms[0].active ==> forall i | 0 <= i < |ms| :: t[i].active == ms[i].active)
  {
    hide FixActive, CountActive, Decide, NewEntry, MbrOk, GoodMbrTypes, Assignable, Extended;
    DecideExactly(ms, gs);
    var c := Compose(ms, gs);
    assert |c| == TableSize(gs) == Mirrored(gs) == |ms|;
    ComposedEntry(ms, gs, |c|, 0);
    FixActiveLaws(c);
    forall i | 1 <= i < |ms|
      ensures c[i].start == ms[i].start && c[i].end == ms[i].end && c[i].active == ms[i].active
      ensures ms[i].mbrType != 0 ==> c[i].mbrType == ms[i].mbrType
    {
      ComposedEntry(ms, gs, |c|, i);
      NewEntryLaws(ms, gs[i], i);
      StartsDiffer(ms, i);
      NewEntryKeeps(ms, gs[i], i, i);
    }
    if !ms[0].active {
      var a :| 0 <= a < |ms| && OnlyActive(ms, a);
      assert OnlyActive(c, a);
      SettledAll(c, a);
    }
  }

  lemma {:induction false} SettledAll(parts: seq<Part>, i: nat)
    requires i < |parts| && OnlyActive(parts, i)
    ensures FixActive(parts) == parts
  {
    SettledStays(parts, 0, i);
    SettledStays(parts, 1, i);
    SettledStays(parts, 2, i);
  }

  lemma {:induction false} StartsDiffer(ms: seq<Part>, i: nat)
    requires MbrOk(ms) && i < |ms| && forall k | 0 <= k < |ms| :: 0 < ms[k].start <= ms[k].end
    ensures forall k | 0 <= k < i :: ms[k].start != ms[i].start
  {
    hide Extended;
    forall k | 0 <= k < i
      ensures ms[k].start != ms[i].start
    {
      assert !Overlap(ms[i].start, ms[i].end, ms[k].start, ms[k].end);
    }
  }

  // ----- disjointness

  predicate Disjoint(t: seq<Part>) {
    forall i, j | 0 <= i < |t| && 0 <= j < |t| && i != j :: !Overlap(t[i].start, t[i].end, t[j].start, t[j].end)
  }

  /** When the protective entry stays clear of the listed partitions, said of the GPT alone. */
  predicate ProtectiveClear(gs: seq<GptPart>)
    requires gs != []
  {
    if gs[0].mbrType == 0xef then
      forall j | 1 <= j < TableSize(gs) && j < |gs| :: gs[j].end == 0 || gs[0].end < gs[j].start
    else
      1 <= MinStart(gs) || forall j | 0 <= j < TableSize(gs) - 1 && j < |gs| :: gs[j].end == 0
  }

  /**
   Entries are pairwise disjoint exactly when the ESP lies below every listed partition, or no partition starts at
   block 0.
   */
  lemma {:induction false} DisjointExactly(gs: seq<GptPart>, t: seq<Part>)
    requires gs != [] && TableOk(gs, t)
    requires forall i | 0 <= i < |gs| :: GptEntryOk(gs, i) && gs[i].end < TWO_64
    ensures Disjoint(t) <==> ProtectiveClear(gs)
  {
    hide CountActive, Extended, MinStart;
    var first := FirstListed(gs);
    forall i, j | 1 <= i < |t| && 1 <= j < |t| && i != j
      ensures !Overlap(t[i].start, t[i].end, t[j].start, t[j].end)
    {
      assert Matches(t[i], gs[first + i - 1]) && Matches(t[j], gs[first + j - 1]);
      assert GptEntryOk(gs, first + i - 1);
    }
    assert Disjoint(t) <==> forall j | 1 <= j < |t| :: !Overlap(1, t[0].end, t[j].start, t[j].end) by {
      assert forall j | 1 <= j < |t| ::
        Overlap(t[0].start, t[0].end, t[j].start, t[j].end) <==> Overlap(t[j].start, t[j].end, t[0].start, t[0].end);
    }
    ProtectiveOverlap(gs, t);
  }

  /** Whether the protective entry overlaps listed entry j. */
  lemma {:induction false} EntryOverlap(gs: seq<GptPart>, t: seq<Part>, j: nat)
    requires gs != [] && TableOk(gs, t) && 1 <= j < |t|
    requires forall i | 0 <= i < |gs| :: GptEntryOk(gs, i) && gs[i].end < TWO_64
    ensures FirstListed(gs) + j - 1 < |gs|
    ensures gs[0].mbrType == 0xef ==>
      (Overlap(1, t[0].end, t[j].start, t[j].end) <==> gs[j].end != 0 && gs[j].start <= gs[0].end)
    ensures gs[0].mbrType != 0xef ==>
      (Overlap(1, t[0].end, t[j].start, t[j].end) <==> gs[j - 1].end != 0 && MinStart(gs) == 0)
  {
    hide CountActive, Extended, MinStart;
    var i := FirstListed(gs) + j - 1;
    assert Matches(t[j], gs[i]);
    assert GptEntryOk(gs, i);
    assert MinStart(gs) <= gs[i].start;
  }

  lemma {:induction false} ProtectiveOverlap(gs: seq<GptPart>, t: seq<Part>)
    requires gs != [] && TableOk(gs, t)
    requires forall i | 0 <= i < |gs| :: GptEntryOk(gs, i) && gs[i].end < TWO_64
    ensures (forall j | 1 <= j < |t| :: !Overlap(1, t[0].end, t[j].start, t[j].end)) <==> ProtectiveClear(gs)
  {
    hide CountActive, Extended, Matches, MinStart, GptEntryOk, Overlap;
    var first := FirstListed(gs);
    forall j | 1 <= j < |t|
      ensures first + j - 1 < |gs|
      ensures Overlap(1, t[0].end, t[j].start, t[j].end) <==>
        && gs[first + j - 1].end != 0
        && (if gs[0].mbrType == 0xef then gs[first + j - 1].start <= gs[0].end else MinStart(gs) == 0)
    {
      EntryOverlap(gs, t, j);
    }
    if forall j | 1 <= j < |t| :: !Overlap(1, t[0].end, t[j].start, t[j].end) {
      if gs[0].mbrType == 0xef {
        forall j | 1 <= j < TableSize(gs) && j < |gs|
          ensures gs[j].end == 0 || gs[0].end < gs[j].start
        {
          assert !Overlap(1, t[0].end, t[j].start, t[j].end);
        }
      } else if MinStart(gs) == 0 {
        forall j | 0 <= j < TableSize(gs) - 1 && j < |gs|
          ensures gs[j].end == 0
        {
          assert !Overlap(1, t[0].end, t[j + 1].start, t[j + 1].end);
        }
      }
    }
  }

  /** Disjointness of the table a run would write, said of the disk. */
  lemma {:induction false} PlannedDisjoint(disk: Disk)
    requires Wellformed(disk) && Plan(disk).Some?
    ensures ReadGpt(disk).Some? && ReadGpt(disk).value != []
    ensures Disjoint(Plan(disk).value) <==> ProtectiveClear(Typed(disk, ReadGpt(disk).value))
  {
    hide Plan, ReadGpt, Typed, Compose, FixActive, TableOk, ProtectiveClear, Disjoint, TypeAllowed, KnownOrDummy;
    var ms, ps, gs := PlanFacts(disk);
    TableLaws(ms, gs);
    forall i | 0 <= i < |gs|
      ensures GptEntryOk(gs, i) && gs[i].end < TWO_64
    {
      assert GptEntryOk(ps, i);
    }
    DisjointExactly(gs, Plan(disk).value);
  }

  // ----- running twice

  /** The planned table can be written when every partition starts at block 2 or later. */
  lemma {:induction false} PlannedFits(gs: seq<GptPart>, t: seq<Part>)
    requires gs != [] && TableOk(gs, t)
    requires forall i | 0 <= i < |gs| :: 2 <= gs[i].start <= gs[i].end < TWO_64
    ensures Fits(t)
  {
    hide CountActive, Extended, MinStart;
    CountOne(t);
    var a :| 0 <= a < |t| && OnlyActive(t, a);
    var first := FirstListed(gs);
    forall j | 1 <= j < |t|
      ensures t[j].index == j && Proper(t[j])
    {
      assert Matches(t[j], gs[first + j - 1]);
    }
    var m :| 0 <= m < |gs| && MinStart(gs) == gs[m].start;
  }

  lemma {:induction false} ClippedActive(t: seq<Part>)
    requires forall k | 0 <= k < |t| :: Proper(t[k])
    ensures CountActive(ClippedAll(t)) == CountActive(t)
  {
    if t != [] {
      var init := t[..|t| - 1];
      assert forall k | 0 <= k < |init| :: init[k] == t[k];
      ClippedActive(init);
      assert ClippedAll(t)[..|t| - 1] == ClippedAll(init);
    }
  }

  /** The ESP comes first, the protective entry can cover it, and some listed partition does not fit in 32 bits. */
  predicate Outgrown(gs: seq<GptPart>)
    requires gs != []
  {
    && gs[0].mbrType == 0xef && gs[0].end < TWO_32
    && exists k | 1 <= k < Mirrored(gs) :: gs[k].start >= TWO_32 || gs[k].end + 1 - gs[k].start >= TWO_32
  }

  /** A table read back is found out of date exactly when the GPT has outgrown the boot record. */
  lemma {:induction false} SecondDecision(gs: seq<GptPart>, t: seq<Part>)
    requires gs != [] && TableOk(gs, t) && Fits(t)
    ensures Decide(ClippedAll(t), gs) == Rewrite <==> Outgrown(gs)
  {
    hide CountActive, Extended, MinStart;
    var r := ClippedAll(t);
    ClippedActive(t);
    assert Proper(t[0]);
    assert r[0].mbrType == 0xee && r[0].start == 1;
    if gs[0].mbrType == 0xef {
      assert |t| == Mirrored(gs);
      forall i | 1 <= i < |t|
        ensures Matches(r[i], gs[i]) <==> gs[i].start < TWO_32 && gs[i].end + 1 - gs[i].start < TWO_32
      {
        assert Proper(t[i]);
        assert Matches(t[i], gs[FirstListed(gs) + i - 1]);
      }
    }
  }

  /**
   Clipping makes no entries run into each other: nothing listed starts inside the protective entry, and beside
   a partition that starts beyond 32 bits every other mirrored one ends before the last 32-bit block.
   */
  predicate ClipsApart(gs: seq<GptPart>)
    requires gs != []
  {
    && (forall k | 1 <= k < Mirrored(gs) :: gs[0].end < gs[k].start)
    && (forall j, k | 0 <= j < Mirrored(gs) && 1 <= k < Mirrored(gs) && j != k && gs[k].start >= TWO_32 ::
          gs[j].end < TWO_32 - 1)
  }

  /** Two clipped ranges, the first before the second. */
  lemma {:induction false} ClippedPair(p: Part, q: Part)
    requires Proper(p) && Proper(q) && p.end < q.start
    ensures var c, d := Clipped(p), Clipped(q);
      && (Overlap(c.start, c.end, d.start, d.end) <==> q.start >= TWO_32 && p.end >= TWO_32 - 1)
      && (Overlap(d.start, d.end, c.start, c.end) <==> q.start >= TWO_32 && p.end >= TWO_32 - 1)
  {
  }

  /** Whether partition j, or the protective entry for j == 0, runs into mirrored partition k once both are clipped. */
  predicate RunsInto(gs: seq<GptPart>, j: nat, k: nat)
    requires j < |gs| && k < |gs|
  {
    k > 0 && if gs[j].end < gs[k].start then gs[k].start >= TWO_32 && gs[j].end >= TWO_32 - 1 else j == 0
  }

  /** Partitions j and k are non-empty and one of them ends before the other starts. */
  predicate InSequence(gs: seq<GptPart>, j: nat, k: nat)
    requires j < |gs| && k < |gs|
  {
    && gs[j].start <= gs[j].end && gs[k].start <= gs[k].end
    && (gs[j].end < gs[k].start || gs[k].end < gs[j].start)
  }

  lemma {:induction false} ClippedOverlap(gs: seq<GptPart>, t: seq<Part>, i: nat, k: nat)
    requires gs != [] && TableOk(gs, t) && Fits(t) && gs[0].mbrType == 0xef && gs[0].end < TWO_32
    requires i < |t| && k < |t| && i != k && i < |gs| && k < |gs| && InSequence(gs, i, k)
    ensures var c, d := ClippedAll(t)[i], ClippedAll(t)[k];
      Overlap(c.start, c.end, d.start, d.end) <==> RunsInto(gs, i, k) || RunsInto(gs, k, i)
  {
    hide CountActive, Extended, MinStart;
    assert Proper(t[i]) && Proper(t[k]);
    if i > 0 {
      assert Matches(t[i], gs[i]);
    }
    if k > 0 {
      assert Matches(t[k], gs[k]);
    }
    if t[i].end < t[k].start {
      ClippedPair(t[i], t[k]);
    } else if t[k].end < t[i].start {
      ClippedPair(t[k], t[i]);
    }
  }

  lemma {:induction false} NoneRunsInto(gs: seq<GptPart>)
    requires gs != []
    requires forall j, k | 0 <= j < |gs| && 0 <= k < |gs| && j != k :: InSequence(gs, j, k)
    ensures (forall j, k | 0 <= j < Mirrored(gs) && 0 <= k < Mirrored(gs) && j != k :: !RunsInto(gs, j, k)) <==>
      ClipsApart(gs)
  {
    if forall j, k | 0 <= j < Mirrored(gs) && 0 <= k < Mirrored(gs) && j != k :: !RunsInto(gs, j, k) {
      forall k | 1 <= k < Mirrored(gs)
        ensures gs[0].end < gs[k].start
      {
        assert !RunsInto(gs, 0, k);
      }
      forall j, k | 0 <= j < Mirrored(gs) && 1 <= k < Mirrored(gs) && j != k && gs[k].start >= TWO_32
        ensures gs[j].end < TWO_32 - 1
      {
        assert !RunsInto(gs, j, k) && !RunsInto(gs, k, j) && InSequence(gs, j, k);
      }
    }
  }

  /** The table read back passes the boot record check exactly when clipping keeps its entries apart. */
  lemma {:induction false} ClippedPasses(gs: seq<GptPart>, t: seq<Part>)
    requires gs != [] && TableOk(gs, t) && Fits(t) && Outgrown(gs)
    requires forall i | 0 <= i < |gs| :: GptEntryOk(gs, i)
    ensures MbrOk(ClippedAll(t)) <==> ClipsApart(gs)
  {
    hide CountActive, Extended, MinStart, Clipped, Overlap, ClipsApart, RunsInto;
    var r := ClippedAll(t);
    assert |t| == Mirrored(gs);
    forall j, k | 0 <= j < |gs| && 0 <= k < |gs| && j != k
      ensures InSequence(gs, j, k)
    {
      EntriesInSequence(gs, j, k);
    }
    forall i | 0 <= i < |t|
      ensures !Extended(r[i].mbrType)
    {
      TypeKept(gs, t, i);
    }
    forall i, k | 0 <= i < |t| && 0 <= k < |t| && i != k
      ensures Overlap(r[i].start, r[i].end, r[k].start, r[k].end) <==> RunsInto(gs, i, k) || RunsInto(gs, k, i)
    {
      ClippedOverlap(gs, t, i, k);
    }
    NoneRunsInto(gs);
    PassesExactly(gs, r);
  }

  lemma {:induction false} PassesExactly(gs: seq<GptPart>, r: seq<Part>)
    requires |r| <= |gs| && forall i | 0 <= i < |r| :: !Extended(r[i].mbrType)
    requires forall i, k | 0 <= i < |r| && 0 <= k < |r| && i != k ::
      Overlap(r[i].start, r[i].end, r[k].start, r[k].end) <==> RunsInto(gs, i, k) || RunsInto(gs, k, i)
    ensures MbrOk(r) <==> forall j, k | 0 <= j < |r| && 0 <= k < |r| && j != k :: !RunsInto(gs, j, k)
  {
    hide Extended, Overlap, RunsInto;
  }

  lemma {:induction false} EntriesInSequence(gs: seq<GptPart>, j: nat, k: nat)
    requires j < |gs| && k < |gs| && j != k && GptEntryOk(gs, j) && GptEntryOk(gs, k)
    ensures InSequence(gs, j, k)
  {
  }

  lemma {:induction false} TypeKept(gs: seq<GptPart>, t: seq<Part>, i: nat)
    requires gs != [] && TableOk(gs, t) && Fits(t) && i < |t|
    ensures !Extended(ClippedAll(t)[i].mbrType)
  {
    hide CountActive, MinStart;
    assert Proper(t[i]);
  }

  lemma {:induction false} TypedIgnoresMbr(disk: Disk, sec: Sector, ps: seq<GptPart>)
    requires forall i | 0 <= i < |ps| :: 2 <= ps[i].start && ps[i].start + 128 < TWO_64
    ensures Typed(disk[0 := sec], ps) == Typed(disk, ps)
  {
    hide DetectFs;
    if ps != [] {
      TypedIgnoresMbr(disk, sec, ps[..|ps| - 1]);
      DetectIgnoresMbr(disk, sec, ps[|ps| - 1].start);
    }
  }

  /** Partitions and the entry array leave room for the boot record and do not end with the address space. */
  ghost predicate Representable(disk: Disk)
    requires Wellformed(disk)
  {
    && ArrayClearOfMbr(disk)
    && (ReadGpt(disk).Some? ==> forall p | p in ReadGpt(disk).value :: 2 <= p.start && p.start + 128 < TWO_64)
  }

  /** The second run reads the same GPT and assigns the same types. */
  lemma {:induction false} SecondGpt(disk: Disk, sec: Sector)
    requires Wellformed(disk) && Representable(disk) && Plan(disk).Some?
    ensures Wellformed(disk[0 := sec]) && ReadGpt(disk[0 := sec]) == ReadGpt(disk) && ReadGpt(disk).Some?
    ensures Typed(disk[0 := sec], ReadGpt(disk).value) == Typed(disk, ReadGpt(disk).value)
  {
    hide Plan, ReadGpt, Typed, Wellformed, ArrayClearOfMbr, Compose, FixActive;
    var ms, ps, gs := PlanFacts(disk);
    ReadIgnoresMbr(disk, sec);
    assert forall i | 0 <= i < |ps| :: ps[i] in ps;
    TypedIgnoresMbr(disk, sec, ps);
  }

  /** The planned table keeps its promises and fits. */
  lemma {:induction false} FirstTable(disk: Disk)
    requires Wellformed(disk) && Representable(disk) && Plan(disk).Some?
    ensures 0 in disk && ReadGpt(disk).Some? && GptOk(ReadGpt(disk).value) && ReadGpt(disk).value != []
    ensures var gs := Typed(disk, ReadGpt(disk).value);
      TableOk(gs, Plan(disk).value) && Fits(Plan(disk).value) && forall i | 0 <= i < |gs| :: GptEntryOk(gs, i)
  {
    hide Plan, ReadGpt, Typed, Wellformed, ArrayClearOfMbr, Compose, FixActive, TableOk, Fits, TypeAllowed,
      KnownOrDummy;
    var ms, ps, gs := PlanFacts(disk);
    TableLaws(ms, gs);
    forall i | 0 <= i < |gs|
      ensures GptEntryOk(gs, i) && 2 <= gs[i].start <= gs[i].end < TWO_64
    {
      assert ps[i] in ps && GptEntryOk(ps, i);
    }
    PlannedFits(gs, Plan(disk).value);
  }

  /** When a second run writes once more, said of the typed GPT partitions alone. */
  predicate WritesAgain(gs: seq<GptPart>)
    requires gs != []
  {
    Outgrown(gs) && ClipsApart(gs)
  }

  /** After a run that wrote, the next run plans another write exactly when the GPT says so. */
  lemma {:induction false} SecondPlan(disk: Disk, bootCode: seq<Byte>)
    requires Wellformed(disk) && |bootCode| == BOOTCODE_SIZE && Representable(disk) && Plan(disk).Some?
    ensures Wellformed(Synced(disk, bootCode)) && ReadGpt(disk).Some?
    ensures var gs := Typed(disk, ReadGpt(disk).value);
      gs != [] && (Plan(Synced(disk, bootCode)).Some? <==> WritesAgain(gs))
  {
    hide ReadGpt, Typed, Compose, FixActive, UsedSlots, Readable, Decide, NewSector, Wellformed, Outgrown, ClipsApart,
      MbrOk, GptOk, Representable, Fits, TableOk, ClippedAll;
    var t := Plan(disk).value;
    var gs := Typed(disk, ReadGpt(disk).value);
    FirstTable(disk);
    SecondGpt(disk, NewSector(disk[0], t, bootCode));
    RoundTrip(disk[0], t, bootCode);
    SecondDecision(gs, t);
    if Outgrown(gs) {
      ClippedPasses(gs, t);
    }
  }

  /** When every partition ends within 32 bits, a second run writes nothing, so any number of runs equals one. */
  lemma {:induction false} Idempotent(disk: Disk, bootCode: seq<Byte>)
    requires Wellformed(disk) && |bootCode| == BOOTCODE_SIZE && Representable(disk)
    requires ReadGpt(disk).Some? ==> forall p | p in ReadGpt(disk).value :: p.end < TWO_32
    ensures Wellformed(Synced(disk, bootCode))
    ensures Plan(Synced(disk, bootCode)) == None
    ensures Synced(Synced(disk, bootCode), bootCode) == Synced(disk, bootCode)
  {
    hide ReadGpt, Typed, NewSector, Decide, Compose, FixActive, UsedSlots, Wellformed;
    if Plan(disk).Some? {
      SecondPlan(disk, bootCode);
      NothingOutgrown(disk);
    }
  }

  lemma {:induction false} NothingOutgrown(disk: Disk)
    requires Wellformed(disk) && Representable(disk) && Plan(disk).Some?
    requires ReadGpt(disk).Some? ==> forall p | p in ReadGpt(disk).value :: p.end < TWO_32
    ensures ReadGpt(disk).Some? && ReadGpt(disk).value != [] && !Outgrown(Typed(disk, ReadGpt(disk).value))
  {
    hide ReadGpt, Typed, Plan, Compose, FixActive, CountActive, Extended, Protective;
    var ms, ps, gs := PlanFacts(disk);
    forall k | 1 <= k < Mirrored(gs)
      ensures gs[k].start < TWO_32 && gs[k].end + 1 - gs[k].start < TWO_32
    {
      assert ps[k] in ps && GptEntryOk(ps, k);
    }
  }

  // ----- inputs on which the plain statements fail

  /** A GPT of an EFI System Partition and an HFS+ partition. */
  function TwoPartitions(espStart: nat, espEnd: nat, start: nat, end: nat): seq<GptPart> {
    [GptPart(0, espStart, espEnd, 0xef, GENERAL_TYPES[0]), GptPart(1, start, end, 0xaf, APPLE_TYPES[0])]
  }

  /** The table a first run composes for a GPT over an empty boot record. */
  function FirstWritten(gs: seq<GptPart>): seq<Part>
    requires gs != []
  {
    FixActive(Compose([], gs))
  }

  lemma {:induction false} TwoPartitionsAccepted(espStart: nat, espEnd: nat, start: nat, end: nat)
    requires espStart <= espEnd && start <= end && (espEnd < start || end < espStart)
    ensures var gs := TwoPartitions(espStart, espEnd, start, end);
      && GptOk(gs) && MbrOk([]) && Decide([], gs) == Rewrite && TableOk(gs, FirstWritten(gs))
  {
    hide FixActive, Compose;
    var gs := TwoPartitions(espStart, espEnd, start, end);
    assert IsData(gs[1]);
    TableLaws([], gs);
  }

  /** Both checks pass, the first run writes, and the table read back is judged out of date. */
  predicate WrittenTwice(gs: seq<GptPart>)
    requires gs != []
  {
    && GptOk(gs) && MbrOk([]) && Decide([], gs) == Rewrite
    && var t := FirstWritten(gs);
    && Fits(t) && MbrOk(ClippedAll(t)) && Decide(ClippedAll(t), gs) == Rewrite
  }

  /** A second write: once for a partition that starts beyond 2 TiB, once for one that is longer than that. */
  lemma {:induction false} SecondWriteExamples()
    ensures WrittenTwice(TwoPartitions(40, 100, TWO_32 + 10, TWO_32 + 20))
    ensures WrittenTwice(TwoPartitions(40, 100, 200, TWO_32 + 200))
  {
    SecondWriteOn(TWO_32 + 10, TWO_32 + 20);
    SecondWriteOn(200, TWO_32 + 200);
  }

  lemma {:induction false} SecondWriteOn(start: nat, end: nat)
    requires 100 < start <= end < TWO_64 && (start >= TWO_32 || end + 1 - start >= TWO_32)
    ensures WrittenTwice(TwoPartitions(40, 100, start, end))
  {
    hide Decide, FirstWritten, TableOk, MbrOk, GptOk, Fits, ClippedAll;
    var gs := TwoPartitions(40, 100, start, end);
    var t := FirstWritten(gs);
    TwoPartitionsAccepted(40, 100, start, end);
    PlannedFits(gs, t);
    SecondDecision(gs, t);
    assert gs[1].start >= TWO_32 || gs[1].end + 1 - gs[1].start >= TWO_32;
    ClippedPasses(gs, t);
  }

  /** A table that overlaps itself: the ESP is listed first but lies above the other partition. */
  lemma {:induction false} OverlapExample()
    ensures var gs := TwoPartitions(1000, 1100, 2, 50);
      GptOk(gs) && MbrOk([]) && Decide([], gs) == Rewrite && !Disjoint(FirstWritten(gs))
  {
    hide FirstWritten, TableOk, Disjoint, Decide;
    var gs := TwoPartitions(1000, 1100, 2, 50);
    TwoPartitionsAccepted(1000, 1100, 2, 50);
    DisjointExactly(gs, FirstWritten(gs));
    assert gs[1].end == 50 && gs[1].start == 2;
  }
}
