/**
 File handles of `FSInject.c`: opening, closing and opening the volume, over every run and for
 any behaviour of the two file systems underneath.
 */
module FsHandles {
  import opened Basics
  import opened FsPaths

  /** How the injection was installed; without srcDir nothing is injected but the blacklist still works. */
  datatype Config = Config(tgtDir: string, srcDir: Option<string>, hasSrcFS: bool, blacklist: seq<string>)

  datatype Status = Success | WriteProtected | NotFound | DeviceError | OutOfResources | OtherError(code: nat)

  /**
   How memory and the file systems underneath answer during one call: whether a wrapper can be allocated,
   what the target says, whether the n-th try on the injection volume succeeds, and whether the target
   volume opens a name afresh.
   */
  datatype Answers = Answers(allocates: bool, tgtOpen: string -> Status, srcOpens: (nat, string) -> bool,
                             tgtFsOpens: string -> bool)

  /** An open handle: its name, and the names its target and source handles were opened by. */
  datatype Handle = Handle(fname: string, tgtFP: Option<string>, srcFP: Option<string>)

  const MACH_KERNEL := "\\mach_kernel"
  const KERNEL := "\\System\\Library\\Kernels\\kernel"

  predicate Injecting(c: Config) {
    c.srcDir.Some? && c.hasSrcFS
  }

  predicate Blacklisted(c: Config, fname: string) {
    exists i | 0 <= i < |c.blacklist| ::
      StartsIgnoringCase(fname, c.blacklist[i]) && (c.blacklist[i] == "" ==> fname == "")
  }

  function Image(c: Config, tgtDir: string, fname: string): Option<string> {
    if c.srcDir.Some? then InjectionName(tgtDir, c.srcDir.value, fname) else None
  }

  function TrySource(c: Config, a: Answers, try: nat, fname: string): Option<string> {
    match Image(c, "", fname)
    case None => None
    case Some(path) => if a.srcOpens(try, path) then Some(path) else None
  }

  /** The kernel special cases: a kernel that exists in the injection directory replaces the one asked for. */
  function KernelSource(c: Config, a: Answers, fname: string): Option<string> {
    if !Injecting(c) then None
    else
      var direct := if SameIgnoringCase(fname, MACH_KERNEL) then TrySource(c, a, 0, fname) else None;
      if direct.Some? || !SameIgnoringCase(fname, KERNEL) then direct
      else
        var kernel := TrySource(c, a, 1, "\\kernel");
        if kernel.Some? then kernel else TrySource(c, a, 2, MACH_KERNEL)
  }

  /** Target first, then the injection directory, then the target volume for handles without a target. */
  function OpenPlain(c: Config, a: Answers, parent: Handle, fname: string): (Status, Handle) {
    var status := if parent.tgtFP.Some? then a.tgtOpen(fname) else DeviceError;
    if status == WriteProtected then (status, Handle(fname, None, None))
    else if status == Success then (Success, Handle(fname, Some(fname), None))
    else if !Injecting(c) then (status, Handle(fname, None, None))
    else
      var image := Image(c, c.tgtDir, fname);
      if image.Some? && a.srcOpens(3, image.value) then (Success, Handle(fname, None, image))
      else if parent.tgtFP.None? then
        if a.tgtFsOpens(fname) then (Success, Handle(fname, Some(fname), None))
        else (DeviceError, Handle(fname, None, None))
      else (if image.Some? then DeviceError else status, Handle(fname, None, None))
  }

  /** An opened target directory that is the injection point gets the injection directory as well. */
  function AtInjectionPoint(c: Config, a: Answers, h: Handle): Handle {
    if h.tgtFP.Some? && Injecting(c) && SameIgnoringCase(c.tgtDir, h.fname) && a.srcOpens(4, c.srcDir.value)
    then h.(srcFP := c.srcDir)
    else h
  }

  function Opened(c: Config, a: Answers, parent: Handle, fileName: string): (Status, Option<Handle>) {
    var fname := Normalized(parent.fname, fileName);
    if Blacklisted(c, fname) then (NotFound, None)
    else if !a.allocates then (OutOfResources, None)
    else
      var kernel := KernelSource(c, a, fname);
      if kernel.Some? then (Success, Some(Handle(fname, None, kernel)))
      else
        var (status, h) := OpenPlain(c, a, parent, fname);
        if status == Success then (Success, Some(AtInjectionPoint(c, a, h))) else (status, None)
  }

  // ----- what every live handle satisfies

  predicate KernelName(fname: string) {
    SameIgnoringCase(fname, MACH_KERNEL) || SameIgnoringCase(fname, KERNEL)
  }

  /** The files of the injection directory that stand in for a kernel of this name. */
  predicate KernelImage(c: Config, fname: string, src: Option<string>) {
    || (SameIgnoringCase(fname, MACH_KERNEL) && src == Image(c, "", fname))
    || (SameIgnoringCase(fname, KERNEL) && (src == Image(c, "", "\\kernel") || src == Image(c, "", MACH_KERNEL)))
  }

  /** Where the source handle of a handle may point: a source-only one to its image, or to a kernel's. */
  predicate SourceOk(c: Config, h: Handle) {
    h.srcFP.Some? ==>
      && Injecting(c)
      && (h.tgtFP.Some? ==> h.srcFP == c.srcDir)
      && (h.tgtFP.None? ==> h.srcFP == Image(c, c.tgtDir, h.fname) || KernelImage(c, h.fname, h.srcFP))
  }

  predicate HandleOk(c: Config, h: Handle) {
    && (h.tgtFP.Some? || h.srcFP.Some?)
    && (h.tgtFP.Some? && h.srcFP.Some? ==> SameIgnoringCase(h.fname, c.tgtDir))
    && SourceOk(c, h)
    && (h.tgtFP.Some? ==> h.tgtFP.value == h.fname)
  }

  lemma {:induction false} KernelOnly(c: Config, a: Answers, fname: string)
    ensures var src := KernelSource(c, a, fname);
      src.Some? ==> Injecting(c) && KernelName(fname) && KernelImage(c, fname, src)
  {
    hide SameIgnoringCase, InjectionName;
  }

  /** Whatever the file systems answer, an open succeeds exactly with a handle, and that handle is sound. */
  lemma {:induction false} OpenedOk(c: Config, a: Answers, parent: Handle, fileName: string)
    ensures var (status, h) := Opened(c, a, parent, fileName);
      && (status == Success <==> h.Some?)
      && (h.Some? ==> HandleOk(c, h.value) && h.value.fname == Normalized(parent.fname, fileName))
      && (h.Some? ==> !Blacklisted(c, h.value.fname))
  {
    var fname := Normalized(parent.fname, fileName);
    hide Normalized, KernelSource, Blacklisted, SameIgnoringCase, KernelName, KernelImage, InjectionName;
    KernelOnly(c, a, fname);
    SameSymmetric(c.tgtDir, fname);
  }

  /** A name outside the target directory, not blacklisted and not a kernel, opens just as on the target. */
  lemma {:induction false} OutsideUntouched(c: Config, a: Answers, parent: Handle, fileName: string)
    requires a.allocates && parent.tgtFP.Some?
    requires var fname := Normalized(parent.fname, fileName);
      && !Blacklisted(c, fname) && !KernelName(fname)
      && Image(c, c.tgtDir, fname).None? && !SameIgnoringCase(fname, c.tgtDir)
    ensures var fname := Normalized(parent.fname, fileName);
      Opened(c, a, parent, fileName) ==
        (a.tgtOpen(fname), if a.tgtOpen(fname) == Success then Some(Handle(fname, Some(fname), None)) else None)
  {
  }

  // ----- what an open delivers

  /** A path of the injection directory: its own path and a name in it. */
  function InSrcDir(c: Config, name: string): string
    requires c.srcDir.Some?
  {
    c.srcDir.value + "\\" + name
  }

  lemma {:induction false} KernelPaths(c: Config)
    requires c.srcDir.Some?
    ensures Image(c, "", "\\kernel") == Some(InSrcDir(c, "kernel"))
    ensures Image(c, "", MACH_KERNEL) == Some(InSrcDir(c, "mach_kernel"))
  {
    assert "\\kernel"[0..] == "\\" + "kernel" && MACH_KERNEL[0..] == "\\" + "mach_kernel";
    assert "\\kernel"[..0] == "" && MACH_KERNEL[..0] == "";
    assert c.srcDir.value + ("\\" + "kernel") == c.srcDir.value + "\\" + "kernel";
    assert c.srcDir.value + ("\\" + "mach_kernel") == c.srcDir.value + "\\" + "mach_kernel";
  }

  lemma {:induction false} KernelNamesDiffer(fname: string)
    requires SameIgnoringCase(fname, KERNEL)
    ensures !SameIgnoringCase(fname, MACH_KERNEL)
  {
    assert |KERNEL| != |MACH_KERNEL|;
  }

  lemma {:induction false} MachPath(c: Config, fname: string)
    requires c.srcDir.Some? && SameIgnoringCase(fname, MACH_KERNEL)
    ensures Image(c, "", fname) == Some(c.srcDir.value + fname)
  {
    assert ToUpperChar(fname[0]) == ToUpperChar(MACH_KERNEL[0]) == '\\';
    assert fname[..0] == "" && fname[0..] == fname;
  }

  /** The injection directory holds nothing that stands in for a kernel of this name. */
  predicate NoStandIn(c: Config, a: Answers, fname: string) {
    Injecting(c) ==>
      && !(SameIgnoringCase(fname, MACH_KERNEL) && a.srcOpens(0, c.srcDir.value + fname))
      && !(SameIgnoringCase(fname, KERNEL) && a.srcOpens(1, InSrcDir(c, "kernel")))
      && !(SameIgnoringCase(fname, KERNEL) && a.srcOpens(2, InSrcDir(c, "mach_kernel")))
  }

  /** The name is not blacklisted, nothing stands in for it, and the wrapper can be allocated: the ordinary case. */
  predicate Ordinary(c: Config, a: Answers, fname: string) {
    a.allocates && !Blacklisted(c, fname) && NoStandIn(c, a, fname)
  }

  /** The target has no answer but a failure that still lets the injection directory be tried. */
  predicate Missing(a: Answers, parent: Handle, fname: string) {
    parent.tgtFP.Some? ==> a.tgtOpen(fname) != Success && a.tgtOpen(fname) != WriteProtected
  }

  /** A name is blacklisted exactly if it begins with a blacklisted string; the empty string blocks only itself. */
  lemma {:induction false} BlacklistedExactly(c: Config, fname: string)
    ensures Blacklisted(c, fname) <==> exists i | 0 <= i < |c.blacklist| :: BeginsWith(fname, c.blacklist[i])
  {
    forall i | 0 <= i < |c.blacklist|
      ensures BeginsWith(fname, c.blacklist[i]) <==>
        StartsIgnoringCase(fname, c.blacklist[i]) && (c.blacklist[i] == "" ==> fname == "")
    {
      var e := c.blacklist[i];
      if |e| <= |fname| {
        var head := fname[..|e|];
        assert forall k | 0 <= k < |e| :: head[k] == fname[k];
      }
    }
  }

  predicate BeginsWith(fname: string, e: string) {
    && |e| <= |fname| && (|e| == 0 ==> |fname| == 0)
    && forall k | 0 <= k < |e| :: ToUpperChar(fname[k]) == ToUpperChar(e[k])
  }

  /** A blacklisted name is not found, whatever the file systems hold. */
  lemma {:induction false} BlacklistedNotFound(c: Config, a: Answers, parent: Handle, fileName: string)
    requires Blacklisted(c, Normalized(parent.fname, fileName))
    ensures Opened(c, a, parent, fileName) == (NotFound, None)
  {
    hide Normalized, Blacklisted, KernelSource, OpenPlain;
  }

  /** Any other name fails without memory for its wrapper, before a file system is asked. */
  lemma {:induction false} NoMemory(c: Config, a: Answers, parent: Handle, fileName: string)
    requires !Blacklisted(c, Normalized(parent.fname, fileName)) && !a.allocates
    ensures Opened(c, a, parent, fileName) == (OutOfResources, None)
  {
    hide Normalized, Blacklisted, KernelSource, OpenPlain;
  }

  lemma {:induction false} NoKernel(c: Config, a: Answers, fname: string)
    requires NoStandIn(c, a, fname)
    ensures KernelSource(c, a, fname) == None
  {
    hide SameIgnoringCase, InjectionName, InSrcDir, Image;
    if Injecting(c) {
      KernelPaths(c);
      if SameIgnoringCase(fname, MACH_KERNEL) {
        MachPath(c, fname);
      }
    }
  }

  /** A file the target lacks comes from the injection directory exactly if it is there. */
  lemma {:induction false} InjectedWhenMissing(c: Config, a: Answers, parent: Handle, fileName: string)
    requires var fname := Normalized(parent.fname, fileName);
      && Ordinary(c, a, fname) && Missing(a, parent, fname)
      && Injecting(c) && Image(c, c.tgtDir, fname).Some?
    ensures var fname := Normalized(parent.fname, fileName);
      var image := Image(c, c.tgtDir, fname);
      && (a.srcOpens(3, image.value) <==>
          Opened(c, a, parent, fileName) == (Success, Some(Handle(fname, None, image))))
      && (!a.srcOpens(3, image.value) && parent.tgtFP.Some? ==> Opened(c, a, parent, fileName) == (DeviceError, None))
  {
    var fname := Normalized(parent.fname, fileName);
    hide Normalized, KernelSource, Blacklisted, SameIgnoringCase, NoStandIn, InjectionName;
    NoKernel(c, a, fname);
  }

  /** A file the target has, or refuses to write, is the target's affair alone. */
  lemma {:induction false} TargetFirst(c: Config, a: Answers, parent: Handle, fileName: string)
    requires var fname := Normalized(parent.fname, fileName);
      Ordinary(c, a, fname) && parent.tgtFP.Some? && !Missing(a, parent, fname)
    ensures var fname := Normalized(parent.fname, fileName);
      var (status, h) := Opened(c, a, parent, fileName);
      && status == a.tgtOpen(fname)
      && (status == Success ==> h.Some? && h.value.tgtFP == Some(fname))
  {
    var fname := Normalized(parent.fname, fileName);
    hide Normalized, KernelSource, Blacklisted, SameIgnoringCase, NoStandIn, InjectionName;
    NoKernel(c, a, fname);
  }

  /** The target directory opened on the target carries the injection directory exactly if that can be opened. */
  lemma {:induction false} InjectionPointJoined(c: Config, a: Answers, parent: Handle, fileName: string)
    requires var fname := Normalized(parent.fname, fileName);
      && Ordinary(c, a, fname) && SameIgnoringCase(fname, c.tgtDir) && Injecting(c)
      && parent.tgtFP.Some? && a.tgtOpen(fname) == Success
    ensures var fname := Normalized(parent.fname, fileName);
      Opened(c, a, parent, fileName) ==
        (Success, Some(Handle(fname, Some(fname), if a.srcOpens(4, c.srcDir.value) then c.srcDir else None)))
  {
    var fname := Normalized(parent.fname, fileName);
    hide Normalized, KernelSource, Blacklisted, SameIgnoringCase, NoStandIn, InjectionName;
    NoKernel(c, a, fname);
    SameSymmetric(c.tgtDir, fname);
  }

  /** From a handle inside the injection directory, a name that is not there is looked up on the target volume. */
  lemma {:induction false} TargetVolumeFallback(c: Config, a: Answers, parent: Handle, fileName: string)
    requires var fname := Normalized(parent.fname, fileName);
      && Ordinary(c, a, fname) && parent.tgtFP.None? && Injecting(c)
      && (Image(c, c.tgtDir, fname).Some? ==> !a.srcOpens(3, Image(c, c.tgtDir, fname).value))
    ensures var fname := Normalized(parent.fname, fileName);
      var (status, h) := Opened(c, a, parent, fileName);
      && (a.tgtFsOpens(fname) ==> status == Success && h.Some? && h.value.tgtFP == Some(fname))
      && (!a.tgtFsOpens(fname) ==> (status, h) == (DeviceError, None))
  {
    var fname := Normalized(parent.fname, fileName);
    hide Normalized, KernelSource, Blacklisted, SameIgnoringCase, NoStandIn, InjectionName;
    NoKernel(c, a, fname);
  }

  /**
   The kernel of a system is replaced by `kernel` or else `mach_kernel` of the injection directory, whichever can be
   opened, before the target is asked at all.
   */
  lemma {:induction false} KernelReplaced(c: Config, a: Answers, parent: Handle, fileName: string)
    requires var fname := Normalized(parent.fname, fileName);
      && a.allocates && !Blacklisted(c, fname) && SameIgnoringCase(fname, "\\System\\Library\\Kernels\\kernel")
      && Injecting(c)
    ensures var fname := Normalized(parent.fname, fileName);
      var kernel, mach := InSrcDir(c, "kernel"), InSrcDir(c, "mach_kernel");
      && (a.srcOpens(1, kernel) ==>
            Opened(c, a, parent, fileName) == (Success, Some(Handle(fname, None, Some(kernel)))))
      && (!a.srcOpens(1, kernel) && a.srcOpens(2, mach) ==>
            Opened(c, a, parent, fileName) == (Success, Some(Handle(fname, None, Some(mach)))))
  {
    var fname := Normalized(parent.fname, fileName);
    assert !SameIgnoringCase(fname, MACH_KERNEL) by { KernelNamesDiffer(fname); }
    KernelPaths(c);
    hide Normalized, Blacklisted, SameIgnoringCase, InjectionName, InSrcDir, Image, OpenPlain;
  }

  /** `mach_kernel` in the root is replaced by that of the injection directory if it can be opened. */
  lemma {:induction false} MachKernelReplaced(c: Config, a: Answers, parent: Handle, fileName: string)
    requires var fname := Normalized(parent.fname, fileName);
      && a.allocates && !Blacklisted(c, fname) && SameIgnoringCase(fname, "\\mach_kernel") && Injecting(c)
      && a.srcOpens(0, c.srcDir.value + fname)
    ensures var fname := Normalized(parent.fname, fileName);
      Opened(c, a, parent, fileName) == (Success, Some(Handle(fname, None, Some(c.srcDir.value + fname))))
  {
    var fname := Normalized(parent.fname, fileName);
    MachPath(c, fname);
    hide Normalized, Blacklisted, SameIgnoringCase, InjectionName, Image, OpenPlain;
  }

  // ----- runs

  /**
   Live handles by number, the number the next one gets, how many file handles are open on the target
   and on the injection volume, and how many volume roots were opened but never wrapped.
   */
  datatype State = State(handles: map<nat, Handle>, next: nat, tgtOut: int, srcOut: int, lost: nat)

  datatype Op =
    | OpenVolume(opens: bool, allocates: bool)
    | Open(parent: nat, fileName: string, answers: Answers)
    | Close(handle: nat)

  const ROOT := Handle("\\", Some("\\"), None)

  const START := State(map[], 0, 0, 0, 0)

  function One(file: Option<string>): int {
    if file.Some? then 1 else 0
  }

  function Added(s: State, h: Handle): State {
    State(s.handles[s.next := h], s.next + 1, s.tgtOut + One(h.tgtFP), s.srcOut + One(h.srcFP), s.lost)
  }

  function Removed(s: State, handle: nat): State {
    if handle !in s.handles then s else
      var h := s.handles[handle];
      s.(handles := s.handles - {handle}, tgtOut := s.tgtOut - One(h.tgtFP), srcOut := s.srcOut - One(h.srcFP))
  }

  function Step(c: Config, s: State, op: Op): State {
    match op
    case OpenVolume(opens, allocates) =>
      if !opens then s
      else if !allocates then s.(tgtOut := s.tgtOut + 1, lost := s.lost + 1)
      else Added(s, ROOT)
    case Open(parent, fileName, a) =>
      if parent !in s.handles then s else
        var (_, h) := Opened(c, a, s.handles[parent], fileName);
        if h.Some? then Added(s, h.value) else s
    case Close(handle) => Removed(s, handle)
  }

  function Run(c: Config, ops: seq<Op>): State {
    if ops == [] then START else Step(c, Run(c, ops[..|ops| - 1]), ops[|ops| - 1])
  }

  /** A handle is sound, and either the volume root or not blacklisted. */
  predicate LiveOk(c: Config, h: Handle) {
    HandleOk(c, h) && (h == ROOT || !Blacklisted(c, h.fname))
  }

  function WithTgt(handles: map<nat, Handle>): set<nat> {
    set i | i in handles && handles[i].tgtFP.Some?
  }

  function WithSrc(handles: map<nat, Handle>): set<nat> {
    set i | i in handles && handles[i].srcFP.Some?
  }

  /** Every file handle open underneath belongs to exactly one live handle, except the lost roots. */
  predicate Balanced(s: State) {
    s.tgtOut == |WithTgt(s.handles)| + s.lost && s.srcOut == |WithSrc(s.handles)|
  }

  predicate Sound(c: Config, s: State) {
    && Balanced(s)
    && forall i | i in s.handles :: i < s.next && LiveOk(c, s.handles[i])
  }

  lemma {:induction false} TgtAdded(handles: map<nat, Handle>, key: nat, h: Handle)
    requires key !in handles
    ensures |WithTgt(handles[key := h])| == |WithTgt(handles)| + One(h.tgtFP)
  {
    assert WithTgt(handles[key := h]) == WithTgt(handles) + (if h.tgtFP.Some? then {key} else {});
  }

  lemma {:induction false} SrcAdded(handles: map<nat, Handle>, key: nat, h: Handle)
    requires key !in handles
    ensures |WithSrc(handles[key := h])| == |WithSrc(handles)| + One(h.srcFP)
  {
    assert WithSrc(handles[key := h]) == WithSrc(handles) + (if h.srcFP.Some? then {key} else {});
  }

  lemma {:induction false} AddedSound(c: Config, s: State, h: Handle)
    requires Sound(c, s) && LiveOk(c, h)
    ensures Sound(c, Added(s, h))
  {
    hide LiveOk, WithTgt, WithSrc, One;
    TgtAdded(s.handles, s.next, h);
    SrcAdded(s.handles, s.next, h);
  }

  lemma {:induction false} TakenOut(handles: map<nat, Handle>, key: nat)
    requires key in handles
    ensures |WithTgt(handles - {key})| == |WithTgt(handles)| - One(handles[key].tgtFP)
    ensures |WithSrc(handles - {key})| == |WithSrc(handles)| - One(handles[key].srcFP)
  {
    assert WithTgt(handles - {key}) == WithTgt(handles) - {key};
    assert WithSrc(handles - {key}) == WithSrc(handles) - {key};
  }

  lemma {:induction false} RemovedSound(c: Config, s: State, handle: nat)
    requires Sound(c, s)
    ensures Sound(c, Removed(s, handle))
  {
    hide LiveOk, WithTgt, WithSrc, One;
    if handle in s.handles {
      TakenOut(s.handles, handle);
    }
  }

  lemma {:induction false} StepSound(c: Config, s: State, op: Op)
    requires Sound(c, s)
    ensures Sound(c, Step(c, s, op))
  {
    hide Opened, Blacklisted, SourceOk, SameIgnoringCase, Added, Removed, WithTgt, WithSrc;
    match op
    case OpenVolume(opens, allocates) =>
      assert LiveOk(c, ROOT) by { RootOk(c); }
      AddedSound(c, s, ROOT);
    case Open(parent, fileName, a) =>
      if parent in s.handles {
        OpenedOk(c, a, s.handles[parent], fileName);
        var h := Opened(c, a, s.handles[parent], fileName).1;
        if h.Some? {
          AddedSound(c, s, h.value);
        }
      }
    case Close(handle) =>
      RemovedSound(c, s, handle);
  }

  lemma {:induction false} RootOk(c: Config)
    ensures HandleOk(c, ROOT)
  {
  }

  /** In every state any run of the driver can reach, all live handles are sound and nothing else is open. */
  lemma {:induction false} RunSound(c: Config, ops: seq<Op>)
    ensures Sound(c, Run(c, ops))
  {
    hide Step, Sound;
    if ops == [] {
      StartSound(c);
    } else {
      RunSound(c, ops[..|ops| - 1]);
      StepSound(c, Run(c, ops[..|ops| - 1]), ops[|ops| - 1]);
    }
  }

  lemma {:induction false} StartSound(c: Config)
    ensures Sound(c, START)
  {
  }

  predicate LosesRoot(op: Op) {
    op.OpenVolume? && op.opens && !op.allocates
  }

  lemma {:induction false} StepLoses(c: Config, s: State, op: Op)
    ensures Step(c, s, op).lost == s.lost + if LosesRoot(op) then 1 else 0
  {
  }

  /** A root is lost exactly by opening the volume without memory for the wrapper. */
  lemma {:induction false} LostExactly(c: Config, ops: seq<Op>)
    ensures Run(c, ops).lost == 0 <==> forall i | 0 <= i < |ops| :: !LosesRoot(ops[i])
  {
    hide Step, LosesRoot;
    if ops == [] {
    } else {
      var init, last := ops[..|ops| - 1], ops[|ops| - 1];
      LostExactly(c, init);
      StepLoses(c, Run(c, init), last);
      assert ops == init + [last];
    }
  }

  /** Once all handles are closed, nothing stays open underneath unless a root was lost. */
  lemma {:induction false} AllClosed(c: Config, ops: seq<Op>)
    requires Run(c, ops).handles == map[]
    ensures Run(c, ops).srcOut == 0
    ensures Run(c, ops).tgtOut == 0 <==> forall i | 0 <= i < |ops| :: !LosesRoot(ops[i])
  {
    RunSound(c, ops);
    LostExactly(c, ops);
    hide Run;
    var s := Run(c, ops);
    assert WithTgt(s.handles) == {} && WithSrc(s.handles) == {};
  }

  // ----- the driver

  class FsInject {
    const config: Config
    var state: State

    constructor (config: Config)
      ensures this.config == config && state == START && Sound(config, state)
    {
      this.config, state := config, START;
      StartSound(config);
    }

    method SfsOpenVolume(opens: bool, allocates: bool) returns (handle: Option<nat>)
      requires Sound(config, state)
      modifies this
      ensures state == Step(config, old(state), OpenVolume(opens, allocates)) && Sound(config, state)
      ensures handle == if opens && allocates then Some(old(state).next) else None
    {
      hide Sound;
      StepSound(config, state, OpenVolume(opens, allocates));
      if !opens {
        return None;
      }
      state := state.(tgtOut := state.tgtOut + 1);
      if !allocates {
        state := state.(lost := state.lost + 1);
        return None;
      }
      handle := Install(Handle("\\", Some("\\"), None));
    }

    /** Files a new handle. */
    method Install(h: Handle) returns (handle: Option<nat>)
      modifies this
      ensures handle == Some(old(state).next)
      ensures state == old(state).(handles := old(state).handles[old(state).next := h], next := old(state).next + 1)
    {
      handle := Some(state.next);
      state := state.(handles := state.handles[state.next := h], next := state.next + 1);
    }

    /** Whether a name starts with a blacklisted string. */
    method CheckBlacklist(fname: string) returns (blocked: bool)
      requires Ascii(fname) && forall i | 0 <= i < |config.blacklist| :: Ascii(config.blacklist[i])
      ensures blocked <==> Blacklisted(config, fname)
    {
      for i := 0 to |config.blacklist|
        invariant forall k | 0 <= k < i ::
          !(StartsIgnoringCase(fname, config.blacklist[k]) && (config.blacklist[k] == "" ==> fname == ""))
      {
        var starts := StriStartsWithBasic(fname, config.blacklist[i]);
        if starts {
          return true;
        }
      }
      return false;
    }

    method FpOpen(parent: nat, fileName: string, a: Answers) returns (status: Status, handle: Option<nat>)
      requires Sound(config, state) && parent in state.handles
      requires Ascii(Normalized(state.handles[parent].fname, fileName)) && Ascii(config.tgtDir)
      requires forall i | 0 <= i < |config.blacklist| :: Ascii(config.blacklist[i])
      modifies this
      ensures state == Step(config, old(state), Open(parent, fileName, a)) && Sound(config, state)
      ensures status == Opened(config, a, old(state).handles[parent], fileName).0
      ensures handle == if status == Success then Some(old(state).next) else None
    {
      hide Normalized, Blacklisted, SameIgnoringCase, Sound, InjectionName, KernelSource;
      StepSound(config, state, Open(parent, fileName, a));
      OpenedOk(config, a, state.handles[parent], fileName);
      var fsiThis := state.handles[parent];
      var newFName := GetNormalizedFName(fsiThis.fname, fileName);
      var blocked := CheckBlacklist(newFName);
      if blocked {
        return NotFound, None;
      }
      if !a.allocates {
        return OutOfResources, None;
      }
      var fsiNew := Handle(newFName, None, None);
      var kernel := OpenKernel(newFName, a);
      if kernel.Some? {
        fsiNew := fsiNew.(srcFP := kernel);
      } else {
        status, fsiNew := OpenTargetOrSource(fsiThis, newFName, a);
        if status != Success {
          return status, None;
        }
        fsiNew := OpenInjectionDir(fsiNew, a);
      }
      handle := Install(fsiNew);
      status := Success;
    }

    method OpenKernel(fname: string, a: Answers) returns (srcFP: Option<string>)
      requires Ascii(fname)
      modifies this
      ensures srcFP == KernelSource(config, a, fname)
      ensures state == old(state).(srcOut := old(state).srcOut + One(srcFP))
    {
      hide SameIgnoringCase, InjectionName;
      KernelNamesAscii();
      var isMach := StrCmpiBasic(fname, MACH_KERNEL);
      if isMach == 0 && Injecting(config) {
        var path := GetInjectionFName("", config.srcDir.value, fname);
        if path.Some? && a.srcOpens(0, path.value) {
          state := state.(srcOut := state.srcOut + 1);
          return path;
        }
      }
      var isKernel := StrCmpiBasic(fname, KERNEL);
      if isKernel == 0 && Injecting(config) {
        var path := GetInjectionFName("", config.srcDir.value, "\\kernel");
        if path.Some? && a.srcOpens(1, path.value) {
          state := state.(srcOut := state.srcOut + 1);
          return path;
        }
        path := GetInjectionFName("", config.srcDir.value, MACH_KERNEL);
        if path.Some? && a.srcOpens(2, path.value) {
          state := state.(srcOut := state.srcOut + 1);
          return path;
        }
      }
      return None;
    }

    method OpenTargetOrSource(parent: Handle, fname: string, a: Answers) returns (status: Status, h: Handle)
      requires Ascii(fname) && Ascii(config.tgtDir)
      modifies this
      ensures (status, h) == OpenPlain(config, a, parent, fname)
      ensures state ==
        old(state).(tgtOut := old(state).tgtOut + One(h.tgtFP), srcOut := old(state).srcOut + One(h.srcFP))
    {
      hide InjectionName;
      h := Handle(fname, None, None);
      status := DeviceError;
      if parent.tgtFP.Some? {
        status := a.tgtOpen(fname);
        if status == Success {
          state := state.(tgtOut := state.tgtOut + 1);
          h := h.(tgtFP := Some(fname));
        }
      }
      if status == WriteProtected {
        return;
      }
      if status != Success && Injecting(config) {
        var path := GetInjectionFName(config.tgtDir, config.srcDir.value, fname);
        if path.Some? {
          if a.srcOpens(3, path.value) {
            state := state.(srcOut := state.srcOut + 1);
            h := h.(srcFP := path);
            status := Success;
          } else {
            status := DeviceError;
          }
        }
        if status != Success && parent.tgtFP.None? {
          if a.tgtFsOpens(fname) {
            state := state.(tgtOut := state.tgtOut + 1);
            h := h.(tgtFP := Some(fname));
            status := Success;
          } else {
            status := DeviceError;
          }
        }
      }
    }

    method OpenInjectionDir(h: Handle, a: Answers) returns (r: Handle)
      requires Ascii(h.fname) && Ascii(config.tgtDir)
      requires h.tgtFP.Some? ==> h.srcFP.None?
      modifies this
      ensures r == AtInjectionPoint(config, a, h)
      ensures state == old(state).(srcOut := old(state).srcOut + One(r.srcFP) - One(h.srcFP))
    {
      hide SameIgnoringCase;
      r := h;
      if h.tgtFP.Some? && Injecting(config) {
        var differs := StrCmpiBasic(config.tgtDir, h.fname);
        if differs == 0 && a.srcOpens(4, config.srcDir.value) {
          state := state.(srcOut := state.srcOut + 1);
          r := h.(srcFP := config.srcDir);
        }
      }
    }

    method FpClose(handle: nat)
      requires Sound(config, state) && handle in state.handles
      modifies this
      ensures state == Step(config, old(state), Close(handle)) && Sound(config, state)
    {
      hide Sound;
      StepSound(config, state, Close(handle));
      var h := state.handles[handle];
      if h.tgtFP.Some? {
        state := state.(tgtOut := state.tgtOut - 1);
      }
      if h.srcFP.Some? {
        state := state.(srcOut := state.srcOut - 1);
      }
      state := state.(handles := state.handles - {handle});
    }
  }

  lemma {:induction false} KernelNamesAscii()
    ensures Ascii(MACH_KERNEL) && Ascii(KERNEL) && Ascii("\\kernel") && Ascii("")
  {
  }
}
