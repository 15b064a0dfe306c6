/**
 Directory reads through an injection point of `FSInject.c`: a handle that holds both the
 injected directory and the original one reads as one directory with both listings
 (section 13.5 of the UEFI Specification for the reads underneath).
 */
module FsDirs {
  import opened Basics
  import opened FsPaths

  datatype DirEntry = DirEntry(name: string, size: nat)

  /** An open directory: its listing and how much of it has been read. */
  datatype Dir = Dir(entries: seq<DirEntry>, pos: nat)

  datatype Status = Success | BufferTooSmall | Unsupported

  /** Outcome of a read: status, the size left in *BufferSize, and the entry delivered. */
  datatype ReadOut = ReadOut(status: Status, size: nat, entry: Option<DirEntry>)

  const END := ReadOut(Success, 0, None)

  /** Directory entries occupy at least their fixed header. */
  predicate DirOk(d: Dir) {
    d.pos <= |d.entries| && forall i | 0 <= i < |d.entries| :: d.entries[i].size > 0
  }

  // ----- one directory

  function DirRead(d: Dir, size: nat): (r: (ReadOut, Dir))
    requires DirOk(d)
    ensures DirOk(r.1) && r.1.entries == d.entries
  {
    if d.pos == |d.entries| then (END, d)
    else
      var e := d.entries[d.pos];
      if e.size <= size then (ReadOut(Success, e.size, Some(e)), d.(pos := d.pos + 1))
      else (ReadOut(BufferTooSmall, e.size, None), d)
  }

  /** Directories can only be rewound. */
  function DirSetPosition(d: Dir, position: nat): (r: (Status, Dir))
    requires DirOk(d)
    ensures DirOk(r.1) && r.1.entries == d.entries
  {
    if position == 0 then (Success, d.(pos := 0)) else (Unsupported, d)
  }

  class DirHandle {
    var dir: Dir

    constructor (entries: seq<DirEntry>)
      requires forall i | 0 <= i < |entries| :: entries[i].size > 0
      ensures dir == Dir(entries, 0) && DirOk(dir)
    {
      dir := Dir(entries, 0);
    }

    method Read(bufferSize: nat) returns (out: ReadOut)
      requires DirOk(dir)
      modifies this
      ensures out == DirRead(old(dir), bufferSize).0 && dir == DirRead(old(dir), bufferSize).1
    {
      var r := DirRead(dir, bufferSize);
      out, dir := r.0, r.1;
    }

    method SetPosition(position: nat) returns (status: Status)
      requires DirOk(dir)
      modifies this
      ensures status == DirSetPosition(old(dir), position).0 && dir == DirSetPosition(old(dir), position).1
    {
      var r := DirSetPosition(dir, position);
      status, dir := r.0, r.1;
    }
  }

  // ----- the injection point

  /** A handle with both a source and a target directory. */
  class InjectionPoint {
    const srcFP: DirHandle
    const tgtFP: DirHandle

    ghost predicate Valid()
      reads srcFP, tgtFP
    {
      srcFP != tgtFP && InOrder(srcFP.dir, tgtFP.dir)
    }

    constructor (srcFP: DirHandle, tgtFP: DirHandle)
      requires srcFP != tgtFP && InOrder(srcFP.dir, tgtFP.dir)
      ensures this.srcFP == srcFP && this.tgtFP == tgtFP && Valid()
    {
      this.srcFP, this.tgtFP := srcFP, tgtFP;
    }

    /** Reads like the one directory that lists the source entries and then the target entries. */
    method Read(bufferSize: nat) returns (out: ReadOut)
      requires Valid()
      modifies srcFP, tgtFP
      ensures Valid()
      ensures (out, Joined(srcFP.dir, tgtFP.dir)) == DirRead(old(Joined(srcFP.dir, tgtFP.dir)), bufferSize)
    {
      ghost var src, tgt := srcFP.dir, tgtFP.dir;
      out := srcFP.Read(bufferSize);
      if out.size == 0 {
        out := tgtFP.Read(bufferSize);
      }
      ReadJoined(src, tgt, bufferSize);
    }

    method SetPosition(position: nat) returns (status: Status)
      requires Valid()
      modifies srcFP, tgtFP
      ensures Valid()
      ensures (status, Joined(srcFP.dir, tgtFP.dir)) == DirSetPosition(old(Joined(srcFP.dir, tgtFP.dir)), position)
    {
      ghost var src, tgt := srcFP.dir, tgtFP.dir;
      status := tgtFP.SetPosition(position);
      status := srcFP.SetPosition(position);
    }
  }

  /** The target listing is not started before the source listing is finished. */
  predicate InOrder(src: Dir, tgt: Dir) {
    DirOk(src) && DirOk(tgt) && (src.pos < |src.entries| ==> tgt.pos == 0)
  }

  /** The single directory an injection point stands for. */
  function Joined(src: Dir, tgt: Dir): Dir {
    Dir(src.entries + tgt.entries, src.pos + tgt.pos)
  }

  /** One read of the two directories. */
  function PairRead(src: Dir, tgt: Dir, size: nat): (ReadOut, Dir, Dir)
    requires DirOk(src) && DirOk(tgt)
  {
    var (out, src') := DirRead(src, size);
    if out.size == 0 then
      var (out', tgt') := DirRead(tgt, size);
      (out', src', tgt')
    else (out, src', tgt)
  }

  lemma {:induction false} ReadJoined(src: Dir, tgt: Dir, size: nat)
    requires InOrder(src, tgt)
    ensures var (out, src', tgt') := PairRead(src, tgt, size);
      InOrder(src', tgt') && DirOk(Joined(src, tgt)) && (out, Joined(src', tgt')) == DirRead(Joined(src, tgt), size)
  {
  }

  // ----- whole runs

  datatype Op = OpRead(size: nat) | OpSetPosition(position: nat)

  datatype Out = OutRead(out: ReadOut) | OutPosition(status: Status)

  /** What a sequence of calls returns on a single directory. */
  function RunDir(d: Dir, ops: seq<Op>): (r: seq<Out>)
    requires DirOk(d)
    ensures |r| == |ops|
    decreases |ops|
  {
    if ops == [] then [] else
      match ops[0]
      case OpRead(size) => var (out, d') := DirRead(d, size); [OutRead(out)] + RunDir(d', ops[1..])
      case OpSetPosition(p) => var (status, d') := DirSetPosition(d, p); [OutPosition(status)] + RunDir(d', ops[1..])
  }

  /** What the same calls return on an injection point. */
  function RunPair(src: Dir, tgt: Dir, ops: seq<Op>): (r: seq<Out>)
    requires DirOk(src) && DirOk(tgt)
    ensures |r| == |ops|
    decreases |ops|
  {
    if ops == [] then [] else
      match ops[0]
      case OpRead(size) =>
        var (out, src', tgt') := PairRead(src, tgt, size);
        [OutRead(out)] + RunPair(src', tgt', ops[1..])
      case OpSetPosition(p) =>
        var (_, tgt') := DirSetPosition(tgt, p);
        var (status, src') := DirSetPosition(src, p);
        [OutPosition(status)] + RunPair(src', tgt', ops[1..])
  }

  /** No sequence of reads and rewinds can tell an injection point from the joined directory. */
  lemma {:induction false} RunsAgree(src: Dir, tgt: Dir, ops: seq<Op>)
    requires InOrder(src, tgt)
    ensures DirOk(Joined(src, tgt)) && RunPair(src, tgt, ops) == RunDir(Joined(src, tgt), ops)
    decreases |ops|
  {
    if ops != [] {
      match ops[0]
      case OpRead(size) =>
        ReadJoined(src, tgt, size);
        var (out, src', tgt') := PairRead(src, tgt, size);
        RunsAgree(src', tgt', ops[1..]);
      case OpSetPosition(p) =>
        var (_, tgt') := DirSetPosition(tgt, p);
        var (status, src') := DirSetPosition(src, p);
        RunsAgree(src', tgt', ops[1..]);
    }
  }

  // ----- listing a directory

  /** Entries delivered by a run of reads with these buffer sizes. */
  function Delivered(d: Dir, sizes: seq<nat>): seq<DirEntry>
    requires DirOk(d)
    decreases |sizes|
  {
    if sizes == [] then [] else
      var (out, d') := DirRead(d, sizes[0]);
      (if out.entry.Some? then [out.entry.value] else []) + Delivered(d', sizes[1..])
  }

  /** The directory after a run of reads. */
  function AfterReads(d: Dir, sizes: seq<nat>): (r: Dir)
    requires DirOk(d)
    ensures DirOk(r) && r.entries == d.entries
    decreases |sizes|
  {
    if sizes == [] then d else AfterReads(DirRead(d, sizes[0]).1, sizes[1..])
  }

  /** Whatever buffers are offered, the entries come in order, none skipped and none twice. */
  lemma {:induction false} ListingInOrder(d: Dir, sizes: seq<nat>)
    requires DirOk(d)
    ensures d.pos <= AfterReads(d, sizes).pos
    ensures Delivered(d, sizes) == d.entries[d.pos..AfterReads(d, sizes).pos]
    decreases |sizes|
  {
    if sizes != [] {
      ListingInOrder(DirRead(d, sizes[0]).1, sizes[1..]);
    }
  }

  /** A read reports the end exactly when everything has been delivered, and keeps reporting it. */
  lemma {:induction false} EndOfListing(d: Dir, sizes: seq<nat>, size: nat)
    requires DirOk(d)
    ensures var d' := AfterReads(d, sizes);
      && (DirRead(d', size).0 == END <==> Delivered(d, sizes) == d.entries[d.pos..])
      && (DirRead(d', size).0 == END ==> DirRead(d', size).1 == d')
  {
    ListingInOrder(d, sizes);
    var d' := AfterReads(d, sizes);
    if d'.pos < |d.entries| {
      assert |d.entries[d.pos..d'.pos]| < |d.entries[d.pos..]|;
    }
  }

  /** Reads with large enough buffers deliver one entry each until the end. */
  lemma {:induction false} EnoughReads(d: Dir, sizes: seq<nat>)
    requires DirOk(d) && |sizes| >= |d.entries| - d.pos
    requires forall i, j | 0 <= i < |d.entries| && 0 <= j < |sizes| :: d.entries[i].size <= sizes[j]
    ensures AfterReads(d, sizes).pos == |d.entries|
    decreases |sizes|
  {
    if sizes != [] {
      var d', rest := DirRead(d, sizes[0]).1, sizes[1..];
      assert forall i, j | 0 <= i < |d'.entries| && 0 <= j < |rest| :: d'.entries[i].size <= rest[j];
      EnoughReads(d', rest);
    }
  }

  // ----- listing an injection point

  /** Entries an injection point delivers in a run of reads. */
  function PairDelivered(src: Dir, tgt: Dir, sizes: seq<nat>): seq<DirEntry>
    requires DirOk(src) && DirOk(tgt)
    decreases |sizes|
  {
    if sizes == [] then [] else
      var (out, src', tgt') := PairRead(src, tgt, sizes[0]);
      (if out.entry.Some? then [out.entry.value] else []) + PairDelivered(src', tgt', sizes[1..])
  }

  /** The two directories after a run of reads. */
  function PairAfter(src: Dir, tgt: Dir, sizes: seq<nat>): (r: (Dir, Dir))
    requires DirOk(src) && DirOk(tgt)
    ensures DirOk(r.0) && DirOk(r.1) && r.0.entries == src.entries && r.1.entries == tgt.entries
    decreases |sizes|
  {
    if sizes == [] then (src, tgt) else
      var (_, src', tgt') := PairRead(src, tgt, sizes[0]);
      PairAfter(src', tgt', sizes[1..])
  }

  /** A run of reads on an injection point delivers and leaves what it would on the joined directory. */
  lemma {:induction false} PairListing(src: Dir, tgt: Dir, sizes: seq<nat>)
    requires InOrder(src, tgt)
    ensures DirOk(Joined(src, tgt))
    ensures PairDelivered(src, tgt, sizes) == Delivered(Joined(src, tgt), sizes)
    ensures var (src', tgt') := PairAfter(src, tgt, sizes);
      InOrder(src', tgt') && Joined(src', tgt') == AfterReads(Joined(src, tgt), sizes)
    decreases |sizes|
  {
    if sizes != [] {
      ReadJoined(src, tgt, sizes[0]);
      var (_, src', tgt') := PairRead(src, tgt, sizes[0]);
      PairListing(src', tgt', sizes[1..]);
    }
  }

  /** The two directories after a sequence of reads and rewinds. */
  function PairOps(src: Dir, tgt: Dir, ops: seq<Op>): (r: (Dir, Dir))
    requires DirOk(src) && DirOk(tgt)
    ensures DirOk(r.0) && DirOk(r.1) && r.0.entries == src.entries && r.1.entries == tgt.entries
    decreases |ops|
  {
    if ops == [] then (src, tgt) else
      match ops[0]
      case OpRead(size) =>
        var (_, src', tgt') := PairRead(src, tgt, size);
        PairOps(src', tgt', ops[1..])
      case OpSetPosition(p) => PairOps(DirSetPosition(src, p).1, DirSetPosition(tgt, p).1, ops[1..])
  }

  /** Both directories rewound by SetPosition(0). */
  function Rewound(d: Dir): Dir
    requires DirOk(d)
  {
    DirSetPosition(d, 0).1
  }

  /**
   An injection point that was used in any way and then rewound lists from the start: the next read after a run of
   reads reports the end exactly when that run has delivered the source listing followed by the target listing.
   */
  lemma {:induction false} InjectedListing(src: Dir, tgt: Dir, ops: seq<Op>, sizes: seq<nat>, size: nat)
    requires DirOk(src) && DirOk(tgt)
    ensures var (src0, tgt0) := PairOps(src, tgt, ops);
      var (src1, tgt1) := PairAfter(Rewound(src0), Rewound(tgt0), sizes);
      PairRead(src1, tgt1, size).0 == END <==>
        PairDelivered(Rewound(src0), Rewound(tgt0), sizes) == src.entries + tgt.entries
  {
    var (src0, tgt0) := PairOps(src, tgt, ops);
    var s, t := Rewound(src0), Rewound(tgt0);
    var (src1, tgt1) := PairAfter(s, t, sizes);
    PairListing(s, t, sizes);
    ReadJoined(src1, tgt1, size);
    EndOfListing(Joined(s, t), sizes, size);
  }

  /** With buffers large enough for every entry, as many reads as there are entries list everything. */
  lemma {:induction false} InjectedListingComplete(src: Dir, tgt: Dir, sizes: seq<nat>)
    requires DirOk(src) && DirOk(tgt) && src.pos == 0 && tgt.pos == 0 && |sizes| >= |src.entries| + |tgt.entries|
    requires forall i, j | 0 <= i < |src.entries| && 0 <= j < |sizes| :: src.entries[i].size <= sizes[j]
    requires forall i, j | 0 <= i < |tgt.entries| && 0 <= j < |sizes| :: tgt.entries[i].size <= sizes[j]
    ensures PairDelivered(src, tgt, sizes) == src.entries + tgt.entries
  {
    PairListing(src, tgt, sizes);
    EnoughReads(Joined(src, tgt), sizes);
    ListingInOrder(Joined(src, tgt), sizes);
  }

  /** Once an injection point reports the end, it does so in every later read and delivers nothing more. */
  lemma {:induction false} EndForever(src: Dir, tgt: Dir, size: nat, more: seq<nat>, later: nat)
    requires InOrder(src, tgt) && PairRead(src, tgt, size).0 == END
    ensures PairAfter(src, tgt, more) == (src, tgt) && PairDelivered(src, tgt, more) == []
    ensures PairRead(src, tgt, later) == (END, src, tgt)
    decreases |more|
  {
    if more != [] {
      EndForever(src, tgt, size, more[1..], later);
    }
  }
}
