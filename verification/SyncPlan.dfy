/**
 What `gptsync` decides: from the GUID table, the current boot record and the contents of
 the partitions to either leave the disk alone or write one particular table.
 */
module SyncPlan {
  import opened Basics
  import opened Sectors
  import opened FsDetect
  import opened Mbr
  import opened Gpt

  // ----- consistency checks

  predicate Overlap(s1: nat, e1: nat, s2: nat, e2: nat) {
    !(s1 > e2 || s2 > e1)
  }

  predicate Extended(t: nat) {
    t == 0x05 || t == 0x0f || t == 0x85
  }

  predicate MbrOk(ms: seq<Part>) {
    forall i | 0 <= i < |ms| ::
      && !Extended(ms[i].mbrType)
      && forall k | 0 <= k < |ms| && k != i :: !Overlap(ms[i].start, ms[i].end, ms[k].start, ms[k].end)
  }

  predicate IsData(p: GptPart) {
    p.gptType.kind == Data || p.gptType.kind == BasicData
  }

  predicate GptEntryOk(ps: seq<GptPart>, i: nat)
    requires i < |ps|
  {
    && ps[i].start <= ps[i].end
    && (forall k | 0 <= k < |ps| && k != i :: !Overlap(ps[i].start, ps[i].end, ps[k].start, ps[k].end))
    && ps[i].gptType.kind != Fatal
  }

  predicate GptOk(ps: seq<GptPart>) {
    && (forall i | 0 <= i < |ps| :: GptEntryOk(ps, i))
    && exists i | 0 <= i < |ps| :: IsData(ps[i])
  }

  // ----- MBR types of the GPT partitions

  predicate HasEsp(ps: seq<GptPart>) {
    exists i | 0 <= i < |ps| :: ps[i].mbrType == 0xef
  }

  /** MBR type for one partition, given whether an EFI System Partition has been seen. */
  function TypeFor(disk: Disk, p: GptPart, haveEsp: bool): nat {
    var d := DetectFs(disk, p.start);
    if p.gptType.kind == BasicData then (if d != 0 then d else 0x0b)
    else if p.gptType.mbrType == 0xef then
      if !haveEsp && (d == 0x01 || d == 0x0e || d == 0x0c) then 0xef
      else if d != 0 then d
      else if haveEsp then 0x83
      else 0xef
    else p.gptType.mbrType
  }

  function Typed(disk: Disk, ps: seq<GptPart>): (r: seq<GptPart>)
    ensures |r| == |ps|
  {
    if ps == [] then [] else
      var init := Typed(disk, ps[..|ps| - 1]);
      var p := ps[|ps| - 1];
      init + [p.(mbrType := TypeFor(disk, p, HasEsp(init)))]
  }

  // ----- what to do

  datatype Action = Inconclusive | Nop | Rewrite

  predicate Matches(m: Part, g: GptPart) {
    m.start == g.start && m.end == g.end && (g.mbrType != 0 ==> m.mbrType == g.mbrType)
  }

  function CountActive(ms: seq<Part>): nat {
    if ms == [] then 0 else CountActive(ms[..|ms| - 1]) + if ms[|ms| - 1].active then 1 else 0
  }

  /** Entries behind the last used one are zero. */
  function GptAt(ps: seq<GptPart>, i: nat): GptPart {
    if i < |ps| then ps[i] else GptPart(0, 0, 0, 0, DUMMY_TYPE)
  }

  predicate AppleWay(ms: seq<Part>, ps: seq<GptPart>)
    requires ms != [] && ps != []
  {
    ms[0].mbrType == 0xee && ps[0].mbrType == 0xef && ms[0].start == 1 && ms[0].end == ps[0].end
  }

  /** An Apple-style table that already mirrors the GPT partitions. */
  predicate InSync(ms: seq<Part>, ps: seq<GptPart>) {
    && |ms| == (if |ps| <= 4 then |ps| else 4)
    && (forall i | 1 <= i < |ms| :: Matches(ms[i], ps[i]))
    && CountActive(ms) == 1
  }

  function Decide(ms: seq<Part>, ps: seq<GptPart>): Action
    requires ps != []
  {
    if |ms| == 0 || (|ms| == 1 && ms[0].mbrType == 0xee) then Rewrite
    else if AppleWay(ms, ps) then (if InSync(ms, ps) then Nop else Rewrite)
    else if ms[0].mbrType == 0xef && forall i | 0 <= i < |ms| :: Matches(ms[i], GptAt(ps, i)) then Rewrite
    else Inconclusive
  }

  // ----- the new table

  function MinStart(ps: seq<GptPart>): (m: nat)
    requires ps != []
    ensures forall i | 0 <= i < |ps| :: m <= ps[i].start
    ensures exists i | 0 <= i < |ps| :: m == ps[i].start
  {
    if |ps| == 1 then ps[0].start else
      var m := MinStart(ps[..|ps| - 1]);
      if ps[|ps| - 1].start < m then ps[|ps| - 1].start else m
  }

  function FirstAt(ms: seq<Part>, start: nat, from: nat): (k: nat)
    requires from <= |ms|
    ensures from <= k <= |ms|
    ensures k < |ms| ==> ms[k].start == start
    decreases |ms| - from
  {
    if from == |ms| || ms[from].start == start then from else FirstAt(ms, start, from + 1)
  }

  /**
   Entry for a GPT partition: an undetected type and the active flag are kept from the old entry at the same start.
   */
  function NewEntry(ms: seq<Part>, g: GptPart, slot: nat): Part {
    var k := FirstAt(ms, g.start, 0);
    var kept := if g.mbrType == 0 && k < |ms| then ms[k].mbrType else g.mbrType;
    Part(slot, g.start, g.end, if kept == 0 then 0xc0 else kept, k < |ms| && ms[k].active)
  }

  /** First GPT partition that gets an entry of its own: the ESP is covered by the protective entry. */
  function FirstListed(ps: seq<GptPart>): nat
    requires ps != []
  {
    if ps[0].mbrType == 0xef then 1 else 0
  }

  function Protective(ps: seq<GptPart>): Part
    requires ps != []
  {
    Part(0, 1, if ps[0].mbrType == 0xef then ps[0].end else (MinStart(ps) - 1) % TWO_64, 0xee, false)
  }

  function ComposeUpTo(ms: seq<Part>, ps: seq<GptPart>, n: nat): (r: seq<Part>)
    requires ps != [] && 1 <= n && FirstListed(ps) + n - 1 <= |ps|
    ensures |r| == n
  {
    if n == 1 then [Protective(ps)]
    else ComposeUpTo(ms, ps, n - 1) + [NewEntry(ms, ps[FirstListed(ps) + n - 2], n - 1)]
  }

  function TableSize(ps: seq<GptPart>): (n: nat)
    requires ps != []
  {
    if |ps| - FirstListed(ps) < 3 then |ps| - FirstListed(ps) + 1 else 4
  }

  function Compose(ms: seq<Part>, ps: seq<GptPart>): seq<Part>
    requires ps != []
  {
    ComposeUpTo(ms, ps, TableSize(ps))
  }

  // ----- exactly one active partition

  predicate BootType(t: nat) {
    t in {0xa8, 0xab, 0xac, 0xaf, 0x07, 0x0b, 0x0c}
  }

  predicate Candidate(parts: seq<Part>, i: nat, iter: nat)
    requires i < |parts|
  {
    (iter == 0 && BootType(parts[i].mbrType)) || (iter >= 1 && parts[i].mbrType == 0x83) || (iter >= 2 && i > 0)
  }

  function FirstCandidate(parts: seq<Part>, iter: nat, from: nat): (k: nat)
    requires from <= |parts|
    ensures from <= k <= |parts|
    ensures k < |parts| ==> Candidate(parts, k, iter)
    ensures forall j | from <= j < k :: !Candidate(parts, j, iter)
    decreases |parts| - from
  {
    if from == |parts| || Candidate(parts, from, iter) then from else FirstCandidate(parts, iter, from + 1)
  }

  function SetActive(parts: seq<Part>, i: nat, active: bool): seq<Part>
    requires i < |parts|
  {
    parts[i := parts[i].(active := active)]
  }

  /** Deactivates every active partition but the first. */
  function KeepFirst(parts: seq<Part>): (r: seq<Part>)
    ensures |r| == |parts|
  {
    if parts == [] then [] else
      var init, p := parts[..|parts| - 1], parts[|parts| - 1];
      KeepFirst(init) + [p.(active := p.active && CountActive(init) == 0)]
  }

  /** One round of the repair; a table with exactly one active partition is left alone. */
  function FixOnce(parts: seq<Part>, iter: nat): (r: seq<Part>)
    ensures |r| == |parts|
  {
    var count := CountActive(parts);
    if count == 1 || parts == [] then parts
    else if count == 0 then
      var k := FirstCandidate(parts, iter, 0);
      if k < |parts| then SetActive(parts, k, true) else parts
    else if iter == 0 then
      if (parts[0].mbrType == 0xee || parts[0].mbrType == 0xef) && parts[0].active then SetActive(parts, 0, false)
      else parts
    else KeepFirst(parts)
  }

  function FixActive(parts: seq<Part>): (r: seq<Part>)
    ensures |r| == |parts|
  {
    FixOnce(FixOnce(FixOnce(parts, 0), 1), 2)
  }

  // ----- a whole run

  /** The table a confirmed run would write, or none when it leaves the disk alone. */
  function Plan(disk: Disk): Option<seq<Part>>
    requires Wellformed(disk)
  {
    match ReadGpt(disk)
    case None => None
    case Some(ps) =>
      if 0 !in disk || !Readable(disk[0]) || !GptOk(ps) || !MbrOk(UsedSlots(disk[0], 4)) then None
      else
        var typed := Typed(disk, ps);
        var ms := UsedSlots(disk[0], 4);
        if Decide(ms, typed) == Rewrite then Some(FixActive(Compose(ms, typed))) else None
  }

  /** Both tables can be read, pass their checks, and the decision is not inconclusive. */
  predicate Accepted(disk: Disk)
    requires Wellformed(disk)
  {
    && ReadGpt(disk).Some? && 0 in disk && Readable(disk[0])
    && var ps, ms := ReadGpt(disk).value, UsedSlots(disk[0], 4);
    && GptOk(ps) && MbrOk(ms) && Decide(ms, Typed(disk, ps)) != Inconclusive
  }

  /** The disk after a confirmed run. */
  function Synced(disk: Disk, bootCode: seq<Byte>): Disk
    requires Wellformed(disk) && |bootCode| == BOOTCODE_SIZE
  {
    match Plan(disk)
    case None => disk
    case Some(parts) => disk[0 := NewSector(disk[0], parts, bootCode)]
  }
}
