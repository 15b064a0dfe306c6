/**
 Publication of the framebuffer handoff (`GopHandoff.c`): write, read back, restore or delete, against
 firmware variable services that may refuse any call or store something else than they were given.
 */
module GopHandoff {
  import opened Basics

  type Bytes = seq<nat>

  datatype Name = Primary | PciInfo | DisplayInfo

  datatype Variable = Variable(attributes: nat, data: Bytes)

  type Store = map<Name, Variable>

  datatype Status =
    Success | InvalidParameter | NotFound | BufferTooSmall | OutOfResources | CompromisedData | Firmware(code: nat)

  /** A write is refused and changes nothing, stores what it was given, or claims success and stores something else. */
  datatype WriteAnswer = Refused(code: nat) | Faithful | Corrupt(stored: Option<Variable>)

  /** A delete removes the variable or fails; finding nothing to delete counts as removing it. */
  datatype DeleteAnswer = Obeys | Fails(code: nat)

  datatype QueryAnswer = Unsupported | QueryFails(code: nat) | Info(remaining: nat, largest: nat)

  /** A read-back: whether its buffer is allocated and whether the firmware reads at all. */
  datatype CheckAnswer = Check(allocates: bool, readable: bool)

  /** What an optional publication meets: the payload if one could be built, and the firmware's answers. */
  datatype Optional = Optional(payload: Option<Bytes>, query: QueryAnswer, write: WriteAnswer, check: CheckAnswer,
    cleanup: DeleteAnswer)

  /**
   What one capture meets: the outcome of selecting, programming and describing the display, then the firmware's
   answers.
   */
  datatype Capture = Capture(
    select: Status, apply: Status, build: Status, draft: Bytes, query: QueryAnswer, readable: bool,
    write: WriteAnswer, check: CheckAnswer, restore: WriteAnswer, restoreCheck: CheckAnswer, cleanup: DeleteAnswer,
    pci: Optional, display: Optional)

  /** The size of a handoff record, and which records pass validation. */
  datatype Config = Config(size: nat, valid: Bytes -> bool)

  ghost predicate ConfigOk(k: Config) {
    k.size > 0 && forall d | k.valid(d) :: |d| == k.size
  }

  /** NON_VOLATILE, BOOTSERVICE_ACCESS and RUNTIME_ACCESS together. */
  const ATTRIBUTES := 7

  // ----- variable services

  function Put(store: Store, name: Name, content: Option<Variable>): Store {
    if content.Some? then store[name := content.value] else store - {name}
  }

  function Content(store: Store, name: Name): Option<Variable> {
    if name in store then Some(store[name]) else None
  }

  /** What a variable holds after a write. */
  function AfterWrite(store: Store, name: Name, v: Variable, w: WriteAnswer): Store {
    match w
    case Refused(_) => store
    case Faithful => Put(store, name, Some(v))
    case Corrupt(stored) => Put(store, name, stored)
  }

  function AfterDelete(store: Store, name: Name, d: DeleteAnswer): Store {
    if d.Obeys? then Put(store, name, None) else store
  }

  function DeleteStatus(d: DeleteAnswer): Status {
    match d
    case Obeys => Success
    case Fails(code) => Firmware(code)
  }

  function GetStatus(store: Store, name: Name, size: nat, readable: bool): Status {
    if !readable then Firmware(0)
    else if name !in store then NotFound
    else if |store[name].data| > size then BufferTooSmall
    else Success
  }

  function Verified(store: Store, name: Name, expected: Variable, c: CheckAnswer): Status {
    if expected.data == [] then InvalidParameter
    else if !c.allocates then OutOfResources
    else
      var status := GetStatus(store, name, |expected.data|, c.readable);
      if status == Success && store[name] != expected then CompromisedData else status
  }

  /** A read-back succeeds only on a store that really holds what was written. */
  lemma {:induction false} VerifiedHolds(store: Store, name: Name, expected: Variable, c: CheckAnswer)
    requires Verified(store, name, expected, c) == Success
    ensures Content(store, name) == Some(expected)
  {
  }

  function Capacity(q: QueryAnswer, largest: nat, total: nat): Status {
    if largest == 0 || total == 0 then InvalidParameter
    else match q
      case Unsupported => Success
      case QueryFails(code) => Firmware(code)
      case Info(remaining, limit) => if largest > limit || total > remaining then OutOfResources else Success
  }

  // ----- the driver's state

  /** The variable store, the two module globals, and the last handoff that was validated and read back. */
  datatype State = State(store: Store, image: Option<nat>, event: Option<nat>, last: Option<Variable>)

  function Existing(k: Config, store: Store, readable: bool): Option<Variable> {
    if GetStatus(store, Primary, k.size, readable) != Success then None
    else if |store[Primary].data| != k.size || !k.valid(store[Primary].data) then None
    else Some(store[Primary])
  }

  function WithOptional(store: Store, name: Name, o: Optional): Store {
    if o.payload.None? || Capacity(o.query, |o.payload.value|, |o.payload.value|) != Success then store
    else
      var v := Variable(ATTRIBUTES, o.payload.value);
      var written := AfterWrite(store, name, v, o.write);
      if o.write.Refused? || Verified(written, name, v, o.check) != Success then AfterDelete(written, name, o.cleanup)
      else written
  }

  function Recovered(store: Store, previous: Option<Variable>, c: Capture): Store {
    if previous.Some? then AfterWrite(store, Primary, previous.value, c.restore)
    else AfterDelete(store, Primary, c.cleanup)
  }

  /** Everything a capture does before it touches the store. */
  function Prepared(k: Config, c: Capture): Status {
    if c.select != Success then c.select
    else if c.apply != Success then c.apply
    else if c.build != Success then c.build
    else if !k.valid(c.draft) then CompromisedData
    else Capacity(c.query, k.size, k.size)
  }

  function Published(k: Config, s: State, c: Capture): (Status, State) {
    var handoff := Variable(ATTRIBUTES, c.draft);
    if c.write.Refused? then (Firmware(c.write.code), s)
    else
      var written := AfterWrite(s.store, Primary, handoff, c.write);
      var status := Verified(written, Primary, handoff, c.check);
      if status != Success then (status, s.(store := Recovered(written, Existing(k, s.store, c.readable), c)))
      else
        var published := WithOptional(WithOptional(written, PciInfo, c.pci), DisplayInfo, c.display);
        (Success, s.(store := published, last := Some(handoff)))
  }

  function Captured(k: Config, s: State, c: Capture): (Status, State) {
    var status := Prepared(k, c);
    if status != Success then (status, s) else Published(k, s, c)
  }

  datatype Deletes = Deletes(primary: DeleteAnswer, pci: DeleteAnswer, display: DeleteAnswer)

  function Cleared(store: Store, d: Deletes): Store {
    AfterDelete(AfterDelete(AfterDelete(store, Primary, d.primary), PciInfo, d.pci), DisplayInfo, d.display)
  }

  function ClearedStatus(d: Deletes): Status {
    if d.primary.Fails? then DeleteStatus(d.primary)
    else if d.pci.Fails? then DeleteStatus(d.pci)
    else DeleteStatus(d.display)
  }

  datatype Op =
    | EntryPoint(image: Option<nat>, tableOk: bool, deletes: Deletes, create: Status, newEvent: nat, capture: Capture)
    | ReadyToBoot(event: Option<nat>, context: Option<nat>, capture: Capture)
    | Unload(image: Option<nat>, close: Status, deletes: Deletes)

  function Entered(k: Config, s: State, op: Op): (Status, State)
    requires op.EntryPoint?
  {
    if op.image.None? || !op.tableOk || s.image.Some? then (InvalidParameter, s)
    else
      var cleared := s.(store := Cleared(s.store, op.deletes));
      if ClearedStatus(op.deletes) != Success then (ClearedStatus(op.deletes), cleared)
      else if op.create != Success then (op.create, cleared.(event := None))
      else (Success, Captured(k, cleared.(image := op.image, event := Some(op.newEvent)), op.capture).1)
  }

  function Unloaded(s: State, op: Op): (Status, State)
    requires op.Unload?
  {
    if op.image.None? || op.image != s.image then (InvalidParameter, s)
    else if s.event.Some? && op.close != Success then (op.close, s)
    else (ClearedStatus(op.deletes), s.(image := None, event := None, store := Cleared(s.store, op.deletes)))
  }

  function Step(k: Config, s: State, op: Op): State {
    match op
    case EntryPoint(_, _, _, _, _, _) => Entered(k, s, op).1
    case ReadyToBoot(event, context, capture) =>
      if event.None? || event != s.event || context != s.image then s else Captured(k, s, capture).1
    case Unload(_, _, _) => Unloaded(s, op).1
  }

  function Run(k: Config, store: Store, ops: seq<Op>): State {
    if ops == [] then State(store, None, None, None) else Step(k, Run(k, store, ops[..|ops| - 1]), ops[|ops| - 1])
  }

  // ----- safety

  /** A record that passed validation, written with the driver's attributes. */
  predicate Proper(k: Config, v: Variable) {
    v.attributes == ATTRIBUTES && k.valid(v.data)
  }

  /** The primary variable is absent or the last validated and read-back-verified handoff. */
  predicate Good(k: Config, s: State) {
    && (s.last.Some? ==> Proper(k, s.last.value))
    && (Content(s.store, Primary) == None || Content(s.store, Primary) == s.last)
  }

  predicate Safe(k: Config, s: State) {
    && (s.image.Some? <==> s.event.Some?)
    && (s.last.Some? ==> Proper(k, s.last.value))
    && (s.image.Some? ==> Good(k, s))
  }

  predicate RecoveryWorks(c: Capture) {
    c.restore.Faithful? && c.cleanup.Obeys?
  }

  lemma {:induction false} OptionalKeepsOthers(store: Store, name: Name, o: Optional, other: Name)
    requires other != name
    ensures Content(WithOptional(store, name, o), other) == Content(store, other)
  {
  }

  /** An optional variable is untouched, absent, or exactly the payload, unless its cleanup fails. */
  lemma {:induction false} OptionalOutcome(store: Store, name: Name, o: Optional)
    requires o.cleanup.Obeys?
    ensures var after := Content(WithOptional(store, name, o), name);
      if o.payload.None? || Capacity(o.query, |o.payload.value|, |o.payload.value|) != Success
      then after == Content(store, name)
      else after == None || after == Some(Variable(ATTRIBUTES, o.payload.value))
  {
  }

  predicate ReachesReadBack(k: Config, c: Capture) {
    Prepared(k, c) == Success && !c.write.Refused?
  }

  function Wrote(s: State, c: Capture): Option<Variable> {
    Content(AfterWrite(s.store, Primary, Variable(ATTRIBUTES, c.draft), c.write), Primary)
  }

  lemma {:induction false} ExistingIsLast(k: Config, s: State, readable: bool)
    requires Good(k, s)
    ensures var previous := Existing(k, s.store, readable);
      previous == None || previous == s.last == Content(s.store, Primary)
  {
  }

  /** A previous handoff is found exactly if the stored variable can be read and is a valid record. */
  lemma {:induction false} ExistingExactly(k: Config, store: Store, readable: bool)
    requires ConfigOk(k)
    ensures Existing(k, store, readable) ==
      if readable && Primary in store && k.valid(store[Primary].data) then Some(store[Primary]) else None
  {
  }

  /** A successful capture leaves exactly its own handoff, validated and read back. */
  lemma {:induction false} CaptureSucceeds(k: Config, s: State, c: Capture)
    requires Captured(k, s, c).0 == Success
    ensures var t := Captured(k, s, c).1;
      && Content(t.store, Primary) == t.last == Some(Variable(7, c.draft))
      && k.valid(c.draft) && Proper(k, t.last.value)
      && t.image == s.image && t.event == s.event
  {
    hide WithOptional, Verified, Capacity, Content;
    var handoff := Variable(ATTRIBUTES, c.draft);
    var written := AfterWrite(s.store, Primary, handoff, c.write);
    VerifiedHolds(written, Primary, handoff, c.check);
    var pci := WithOptional(written, PciInfo, c.pci);
    OptionalKeepsOthers(written, PciInfo, c.pci, Primary);
    OptionalKeepsOthers(pci, DisplayInfo, c.display, Primary);
  }

  /** A read-back succeeds exactly with memory, a readable variable, and the very data and attributes expected. */
  lemma {:induction false} VerifiedExactly(store: Store, name: Name, expected: Variable, c: CheckAnswer)
    ensures Verified(store, name, expected, c) == Success <==>
      expected.data != [] && c.allocates && c.readable && Content(store, name) == Some(expected)
  {
  }

  /** There is room when the firmware does not say, or says that both limits suffice. */
  predicate Room(q: QueryAnswer, size: nat) {
    q.Unsupported? || (q.Info? && size <= q.largest && size <= q.remaining)
  }

  /** A capture gets to its write exactly when the display was selected, programmed and described and there is room. */
  lemma {:induction false} PreparedExactly(k: Config, c: Capture)
    requires ConfigOk(k)
    ensures Prepared(k, c) == Success <==>
      && c.select == Success && c.apply == Success && c.build == Success
      && k.valid(c.draft) && Room(c.query, k.size)
  {
  }

  /** It succeeds exactly if besides the write is accepted and leaves the handoff, and the read-back finds it. */
  lemma {:induction false} CapturedExactly(k: Config, s: State, c: Capture)
    requires ConfigOk(k)
    ensures Captured(k, s, c).0 == Success <==>
      && c.select == Success && c.apply == Success && c.build == Success
      && k.valid(c.draft) && Room(c.query, k.size)
      && (c.write == Faithful || c.write == Corrupt(Some(Variable(ATTRIBUTES, c.draft))))
      && c.check.allocates && c.check.readable
  {
    hide Room, Prepared, Verified, WithOptional, Existing;
    PreparedExactly(k, c);
    var handoff := Variable(ATTRIBUTES, c.draft);
    VerifiedExactly(AfterWrite(s.store, Primary, handoff, c.write), Primary, handoff, c.check);
    assert k.valid(c.draft) ==> |c.draft| == k.size;
  }

  /** An optional payload for which there is room is published if the firmware obeys. */
  lemma {:induction false} OptionalPublished(store: Store, name: Name, o: Optional)
    requires o.payload.Some? && o.payload.value != [] && Room(o.query, |o.payload.value|)
    requires o.write.Faithful? && o.check.allocates && o.check.readable
    ensures Content(WithOptional(store, name, o), name) == Some(Variable(ATTRIBUTES, o.payload.value))
  {
  }

  /** What recovery makes of a failed write. */
  function Left(written: Option<Variable>, previous: Option<Variable>, c: Capture): Option<Variable> {
    if previous.None? then if c.cleanup.Obeys? then None else written
    else match c.restore
      case Refused(_) => written
      case Faithful => previous
      case Corrupt(stored) => stored
  }

  /** What a failed capture leaves behind. */
  lemma {:induction false} CaptureFails(k: Config, s: State, c: Capture)
    requires Captured(k, s, c).0 != Success
    ensures var t := Captured(k, s, c).1;
      && t == s.(store := t.store)
      && (!ReachesReadBack(k, c) ==> t == s)
      && (ReachesReadBack(k, c) ==> Content(t.store, Primary) == Left(Wrote(s, c), Existing(k, s.store, c.readable), c))
      && Content(t.store, PciInfo) == Content(s.store, PciInfo)
      && Content(t.store, DisplayInfo) == Content(s.store, DisplayInfo)
  {
    hide Verified, Capacity, Existing, WithOptional;
  }

  /**
   The recovery a failed read-back would take works: without a readable previous handoff the cleanup deletes, and
   with one the restoring write stores it, or at least stores nothing or the last verified handoff.
   */
  predicate Recovers(k: Config, s: State, c: Capture) {
    if Existing(k, s.store, c.readable).None? then c.cleanup.Obeys?
    else c.restore.Faithful? || (c.restore.Corrupt? && (c.restore.stored == None || c.restore.stored == s.last))
  }

  /** The same capture with another answer to its write and to its read-back. */
  function With(c: Capture, write: WriteAnswer, check: CheckAnswer): Capture {
    c.(write := write, check := check)
  }

  lemma {:induction false} CaptureGood(k: Config, s: State, c: Capture)
    requires Good(k, s) && (Prepared(k, c) != Success || Recovers(k, s, c))
    ensures Good(k, Captured(k, s, c).1)
  {
    hide Captured, Existing, Prepared, Proper, Wrote, Content;
    if Captured(k, s, c).0 == Success {
      CaptureSucceeds(k, s, c);
    } else {
      CaptureFails(k, s, c);
      ExistingIsLast(k, s, c.readable);
    }
  }

  /** A write that claims success and stores garbage, with no memory for the read-back, puts everything on recovery. */
  lemma {:induction false} GarbageSpoils(k: Config, s: State, c: Capture)
    requires Good(k, s) && Prepared(k, c) == Success && !Recovers(k, s, c)
    requires c.write == Corrupt(Some(Variable(0, []))) && !c.check.allocates
    ensures !Good(k, Captured(k, s, c).1)
  {
    hide Existing, Prepared;
    CaptureFails(k, s, c);
  }

  /**
   Against every answer of the firmware to the write and the read-back, a capture keeps the primary variable absent
   or last verified exactly when it does not get as far as the write or its recovery works.
   */
  lemma {:induction false} GoodExactly(k: Config, s: State, c: Capture)
    requires Good(k, s)
    ensures (forall w: WriteAnswer, ch: CheckAnswer :: Good(k, Captured(k, s, With(c, w, ch)).1)) <==>
      Prepared(k, c) != Success || Recovers(k, s, c)
  {
    hide Captured, Existing, Good;
    if Prepared(k, c) != Success || Recovers(k, s, c) {
      forall w: WriteAnswer, ch: CheckAnswer
        ensures Good(k, Captured(k, s, With(c, w, ch)).1)
      {
        CaptureGood(k, s, With(c, w, ch));
      }
    } else {
      GarbageSpoils(k, s, With(c, Corrupt(Some(Variable(0, []))), Check(false, false)));
    }
  }

  /**
   A failed recapture leaves the previous verified handoff in place, except that one which got as far as
   the read-back without having been able to read the previous handoff removes it.
   */
  lemma {:induction false} RecaptureKeeps(k: Config, s: State, c: Capture)
    requires ConfigOk(k) && Good(k, s) && Content(s.store, Primary).Some?
    requires Captured(k, s, c).0 != Success && RecoveryWorks(c)
    ensures Content(Captured(k, s, c).1.store, Primary) == if ReachesReadBack(k, c) && !c.readable then None else s.last
  {
  }

  /** With the restoring write refused, a capture can leave a handoff nobody verified. */
  lemma {:induction false} RefusedRecoverySpoils(k: Config, s: State, c: Capture)
    requires ConfigOk(k) && Good(k, s) && Prepared(k, c) == Success
    requires c.write.Faithful? && !c.check.allocates && c.restore.Refused? && c.cleanup.Fails?
    requires s.last != Some(Variable(ATTRIBUTES, c.draft))
    ensures !Good(k, Captured(k, s, c).1)
  {
  }

  lemma {:induction false} ClearedContent(store: Store, d: Deletes)
    ensures Content(Cleared(store, d), Primary) == if d.primary.Obeys? then None else Content(store, Primary)
    ensures Content(Cleared(store, d), PciInfo) == if d.pci.Obeys? then None else Content(store, PciInfo)
    ensures Content(Cleared(store, d), DisplayInfo) == if d.display.Obeys? then None else Content(store, DisplayInfo)
  {
  }

  lemma {:induction false} CaptureKeepsSafe(k: Config, s: State, c: Capture)
    requires Safe(k, s) && s.image.Some? && RecoveryWorks(c)
    ensures Safe(k, Captured(k, s, c).1)
  {
    hide Captured, Existing, ReachesReadBack, Wrote, Proper, Content;
    CaptureGood(k, s, c);
    if Captured(k, s, c).0 == Success {
      CaptureSucceeds(k, s, c);
    } else {
      CaptureFails(k, s, c);
    }
  }

  lemma {:induction false} StepSafe(k: Config, s: State, op: Op)
    requires Safe(k, s) && (!op.Unload? ==> RecoveryWorks(op.capture))
    ensures Safe(k, Step(k, s, op))
  {
    hide Captured, Proper, Cleared, RecoveryWorks;
    match op
    case EntryPoint(image, tableOk, deletes, create, newEvent, capture) =>
      ClearedContent(s.store, deletes);
      if Entered(k, s, op).0 == Success {
        var armed := s.(store := Cleared(s.store, deletes), image := image, event := Some(newEvent));
        assert Safe(k, armed);
        CaptureKeepsSafe(k, armed, capture);
      }
    case ReadyToBoot(event, context, capture) =>
      if Step(k, s, op) != s {
        CaptureKeepsSafe(k, s, capture);
      }
    case Unload(_, _, _) =>
  }

  /**
   Whatever the store held before and whatever the firmware does, as long as recovery writes succeed:
   while the driver is loaded, the primary variable is absent or the last verified handoff.
   */
  lemma {:induction false} RunSafe(k: Config, store: Store, ops: seq<Op>)
    requires forall i | 0 <= i < |ops| :: !ops[i].Unload? ==> RecoveryWorks(ops[i].capture)
    ensures Safe(k, Run(k, store, ops))
  {
    hide Step, Good, RecoveryWorks;
    if ops == [] {
    } else {
      var init := ops[..|ops| - 1];
      assert forall i | 0 <= i < |init| :: init[i] == ops[i];
      RunSafe(k, store, init);
      StepSafe(k, Run(k, store, init), ops[|ops| - 1]);
    }
  }

  // ----- loading and recapturing

  /** Loading succeeds exactly for a new image with the right table, three deletes and an event, and arms that event. */
  lemma {:induction false} EntryExactly(k: Config, s: State, op: Op)
    requires op.EntryPoint?
    ensures var (status, t) := Entered(k, s, op);
      && (status == Success <==>
          && op.image.Some? && op.tableOk && s.image.None? && op.create == Success
          && op.deletes.primary.Obeys? && op.deletes.pci.Obeys? && op.deletes.display.Obeys?)
      && (status == Success ==> t.image == op.image && t.event == Some(op.newEvent))
      && (status != Success ==> t.image == s.image && t.last == s.last)
      && (status != Success && op.image.Some? && op.tableOk && s.image.None? ==>
            t.store == Cleared(s.store, op.deletes))
  {
    hide Cleared;
    if Entered(k, s, op).0 == Success {
      var armed := s.(store := Cleared(s.store, op.deletes), image := op.image, event := Some(op.newEvent));
      CaptureArmed(k, armed, op.capture);
    }
  }

  lemma {:induction false} CaptureArmed(k: Config, s: State, c: Capture)
    ensures var t := Captured(k, s, c).1; t.image == s.image && t.event == s.event
  {
  }

  /** While loaded, the armed event with the loaded image recaptures, and no other callback does anything. */
  lemma {:induction false} Recaptures(k: Config, s: State, event: Option<nat>, context: Option<nat>, c: Capture)
    ensures Step(k, s, ReadyToBoot(event, context, c)) ==
      if event.Some? && s.event == event && s.image == context then Captured(k, s, c).1 else s
  {
  }

  // ----- unloading

  /** Unload succeeds exactly with the loaded image, a closed event and three deletes, and then nothing is left. */
  lemma {:induction false} UnloadClears(s: State, op: Op)
    requires op.Unload?
    ensures var (status, t) := Unloaded(s, op);
      && (status == Success <==>
          && op.image.Some? && op.image == s.image && (s.event.Some? ==> op.close == Success)
          && op.deletes.primary.Obeys? && op.deletes.pci.Obeys? && op.deletes.display.Obeys?)
      && (status == Success ==> t == State(map[], None, None, s.last))
  {
    ClearedContent(s.store, op.deletes);
    var t := Cleared(s.store, op.deletes);
    if Unloaded(s, op).0 == Success {
      assert forall n: Name :: n !in t by {
        forall n: Name ensures n !in t {
          match n case Primary => case PciInfo => case DisplayInfo =>
        }
      }
      assert t == map[];
    }
  }

  /** After that, callbacks and unloads change nothing until the next entry point. */
  lemma {:induction false} QuietAfterUnload(k: Config, s: State, ops: seq<Op>)
    requires s.image.None? && s.event.None?
    requires forall i | 0 <= i < |ops| :: !ops[i].EntryPoint?
    ensures After(k, s, ops) == s
  {
    if ops == [] {
    } else {
      assert Step(k, s, ops[0]) == s;
      QuietAfterUnload(k, s, ops[1..]);
    }
  }

  function After(k: Config, s: State, ops: seq<Op>): State
    decreases |ops|
  {
    if ops == [] then s else After(k, Step(k, s, ops[0]), ops[1..])
  }

  // ----- the driver

  class Driver {
    const k: Config
    var store: Store
    var mImageHandle: Option<nat>
    var mReadyToBootEvent: Option<nat>
    ghost var last: Option<Variable>

    constructor (k: Config, store: Store)
      ensures this.k == k && View() == Run(k, store, [])
    {
      this.k, this.store, mImageHandle, mReadyToBootEvent, last := k, store, None, None, None;
    }

    ghost function View(): State
      reads this
    {
      State(store, mImageHandle, mReadyToBootEvent, last)
    }

    /** The firmware's SetVariable. */
    method SetVariable(name: Name, v: Variable, w: WriteAnswer) returns (status: Status)
      modifies this`store
      ensures store == AfterWrite(old(store), name, v, w)
      ensures status == if w.Refused? then Firmware(w.code) else Success
    {
      match w {
        case Refused(code) =>
          status := Firmware(code);
        case Faithful =>
          store, status := store[name := v], Success;
        case Corrupt(stored) =>
          store, status := Put(store, name, stored), Success;
      }
    }

    method DeleteVariable(name: Name, d: DeleteAnswer) returns (status: Status)
      modifies this`store
      ensures store == AfterDelete(old(store), name, d) && status == DeleteStatus(d)
    {
      if d.Obeys? {
        store := store - {name};
      }
      status := DeleteStatus(d);
    }

    method DeleteOutputVariables(d: Deletes) returns (status: Status)
      modifies this`store
      ensures store == Cleared(old(store), d) && status == ClearedStatus(d)
    {
      hide AfterDelete;
      var handoffStatus := DeleteVariable(Primary, d.primary);
      var pciInfoStatus := DeleteVariable(PciInfo, d.pci);
      var displayInfoStatus := DeleteVariable(DisplayInfo, d.display);
      if handoffStatus != Success {
        return handoffStatus;
      }
      if pciInfoStatus != Success {
        return pciInfoStatus;
      }
      return displayInfoStatus;
    }

    method VerifyVariablePayload(name: Name, expected: Variable, c: CheckAnswer) returns (status: Status)
      ensures status == Verified(store, name, expected, c)
      ensures status == Success ==> Content(store, name) == Some(expected)
    {
      if |expected.data| == 0 {
        return InvalidParameter;
      }
      if !c.allocates {
        return OutOfResources;
      }
      status := GetStatus(store, name, |expected.data|, c.readable);
      if status == Success {
        var v := store[name];
        if |v.data| != |expected.data| || v.attributes != expected.attributes || v.data != expected.data {
          status := CompromisedData;
        }
      }
    }

    /** Either optional publication: its failures never reach the caller. */
    method PublishOptional(name: Name, o: Optional)
      modifies this`store
      ensures store == WithOptional(old(store), name, o)
    {
      hide AfterWrite, AfterDelete, Verified, Capacity;
      if o.payload.None? {
        return;
      }
      var v := Variable(ATTRIBUTES, o.payload.value);
      var status := Capacity(o.query, |v.data|, |v.data|);
      if status != Success {
        return;
      }
      status := SetVariable(name, v, o.write);
      if status == Success {
        status := VerifyVariablePayload(name, v, o.check);
      }
      if status != Success {
        var cleanup := DeleteVariable(name, o.cleanup);
      }
    }

    method ReadExistingPrimaryHandoff(readable: bool) returns (previous: Option<Variable>)
      ensures previous == Existing(k, store, readable)
      ensures previous.Some? ==> previous == Content(store, Primary) && k.valid(previous.value.data)
    {
      var status := GetStatus(store, Primary, k.size, readable);
      if status != Success || |store[Primary].data| != k.size {
        return None;
      }
      if !k.valid(store[Primary].data) {
        return None;
      }
      return Some(store[Primary]);
    }

    method RestorePrimaryHandoff(v: Variable, w: WriteAnswer, c: CheckAnswer) returns (status: Status)
      modifies this`store
      ensures store == AfterWrite(old(store), Primary, v, w)
      ensures status == Success ==> Content(store, Primary) == Some(v)
    {
      status := SetVariable(Primary, v, w);
      if status == Success {
        status := VerifyVariablePayload(Primary, v, c);
      }
    }

    method CaptureCurrentGop(c: Capture) returns (status: Status)
      modifies this
      ensures (status, View()) == Captured(k, old(View()), c)
    {
      hide AfterDelete, Verified, Capacity, WithOptional, Existing;
      if c.select != Success {
        return c.select;
      }
      if c.apply != Success {
        return c.apply;
      }
      if c.build != Success {
        return c.build;
      }
      if !k.valid(c.draft) {
        return CompromisedData;
      }
      var handoff := Variable(ATTRIBUTES, c.draft);
      status := Capacity(c.query, k.size, k.size);
      if status != Success {
        return;
      }
      var previous := ReadExistingPrimaryHandoff(c.readable);
      status := SetVariable(Primary, handoff, c.write);
      if status != Success {
        return;
      }
      status := VerifyVariablePayload(Primary, handoff, c.check);
      if status != Success {
        if previous.Some? {
          var recovery := RestorePrimaryHandoff(previous.value, c.restore, c.restoreCheck);
        } else {
          var recovery := DeleteVariable(Primary, c.cleanup);
        }
        return;
      }
      last := Some(handoff);
      PublishOptional(PciInfo, c.pci);
      PublishOptional(DisplayInfo, c.display);
    }

    method CaptureAtReadyToBoot(event: Option<nat>, context: Option<nat>, c: Capture)
      modifies this
      ensures View() == Step(k, old(View()), ReadyToBoot(event, context, c))
    {
      hide Captured;
      if event.None? || event != mReadyToBootEvent || context != mImageHandle {
        return;
      }
      var status := CaptureCurrentGop(c);
    }

    method GopHandoffUnload(image: Option<nat>, close: Status, deletes: Deletes) returns (status: Status)
      modifies this
      ensures (status, View()) == Unloaded(old(View()), Op.Unload(image, close, deletes))
    {
      hide Cleared, ClearedStatus;
      if image.None? || image != mImageHandle {
        return InvalidParameter;
      }
      if mReadyToBootEvent.Some? {
        if close != Success {
          return close;
        }
        mReadyToBootEvent := None;
      }
      mImageHandle := None;
      status := DeleteOutputVariables(deletes);
    }

    method GopHandoffEntryPoint(image: Option<nat>, tableOk: bool, deletes: Deletes, create: Status, newEvent: nat,
                                c: Capture)
      returns (status: Status)
      requires mImageHandle.None? ==> mReadyToBootEvent.None?
      modifies this
      ensures (status, View()) == Entered(k, old(View()), EntryPoint(image, tableOk, deletes, create, newEvent, c))
    {
      hide Cleared, ClearedStatus, Captured;
      if image.None? || !tableOk || mImageHandle.Some? {
        return InvalidParameter;
      }
      mImageHandle := image;
      status := DeleteOutputVariables(deletes);
      if status != Success {
        mImageHandle := None;
        return;
      }
      status := create;
      if status != Success {
        mReadyToBootEvent := None;
        mImageHandle := None;
        return;
      }
      mReadyToBootEvent := Some(newEvent);
      var captured := CaptureCurrentGop(c);
      status := Success;
    }
  }

  // ----- finding the PCI device behind a display

  const END_DEVICE_PATH_LENGTH := 4

  /** A handle: its device path with the end node, and the PCI interface it offers. */
  datatype PciHandle = PciHandle(path: Option<Bytes>, io: Option<nat>)

  /**
   How much of the display's path a handle covers: the length of its path without the end node if that
   is a non-empty prefix of the display's and the handle offers an interface, and 0 otherwise.
   */
  function Depth(gop: Bytes, h: PciHandle): (n: nat)
    ensures n > 0 ==> h.path.Some? && h.io.Some? && n <= |gop| && n <= |h.path.value| && h.path.value[..n] == gop[..n]
  {
    if h.path.None? || h.io.None? || |h.path.value| <= END_DEVICE_PATH_LENGTH then 0
    else
      var n := |h.path.value| - END_DEVICE_PATH_LENGTH;
      if n <= |gop| - END_DEVICE_PATH_LENGTH && h.path.value[..n] == gop[..n] then n else 0
  }

  /** Exactly when a handle counts, and for how much. */
  lemma {:induction false} DepthExactly(gop: Bytes, h: PciHandle, n: nat)
    requires n > 0
    ensures Depth(gop, h) == n <==>
      && h.io.Some? && h.path.Some? && |h.path.value| == n + 4 && n + 4 <= |gop|
      && forall k | 0 <= k < n :: h.path.value[k] == gop[k]
  {
    if h.path.Some? && n <= |h.path.value| && n <= |gop| {
      assert h.path.value[..n] == gop[..n] <==> forall k | 0 <= k < n :: h.path.value[k] == gop[k] by {
        var p, g := h.path.value[..n], gop[..n];
        assert forall k | 0 <= k < n :: p[k] == h.path.value[k] && g[k] == gop[k];
      }
    }
  }

  /** A candidate among the first n handles that no other candidate there is deeper than. */
  predicate Deepest(gop: Bytes, handles: seq<PciHandle>, n: nat, i: int)
    requires n <= |handles|
  {
    && 0 <= i < n && Depth(gop, handles[i]) > 0
    && forall j | 0 <= j < n :: Depth(gop, handles[j]) <= Depth(gop, handles[i])
  }

  datatype Found = Unique(io: nat) | Ambiguous | Nothing | LocateFailed(code: nat)

  /**
   The interface of the deepest device on the display's path: nothing without candidates, ambiguous
   exactly when the deepest candidates offer different interfaces.
   */
  ghost predicate Resolved(gop: Bytes, handles: seq<PciHandle>, found: Found) {
    && !found.LocateFailed?
    && (found.Nothing? <==> forall i | 0 <= i < |handles| :: Depth(gop, handles[i]) == 0)
    && (found.Unique? ==> exists i :: Deepest(gop, handles, |handles|, i))
    && (found.Unique? ==> forall i | Deepest(gop, handles, |handles|, i) :: handles[i].io == Some(found.io))
    && (found.Ambiguous? ==> exists i, j ::
          Deepest(gop, handles, |handles|, i) && Deepest(gop, handles, |handles|, j) && handles[i].io != handles[j].io)
  }

  /** How the firmware answers when asked for all handles with a PCI interface. */
  datatype Located = LocateFails(code: nat) | Handles(handles: seq<PciHandle>)

  /** The display handle's own interface comes first, then the deepest device on its path. */
  method FindPciIoForGopHandle(own: Option<nat>, gop: Option<Bytes>, located: Located) returns (found: Found)
    ensures own.Some? ==> found == Unique(own.value)
    ensures own.None? && (gop.None? || |gop.value| <= END_DEVICE_PATH_LENGTH) ==> found == Nothing
    ensures own.None? && gop.Some? && |gop.value| > END_DEVICE_PATH_LENGTH ==>
      match located
      case LocateFails(code) => found == LocateFailed(code)
      case Handles(handles) => Resolved(gop.value, handles, found)
  {
    hide Resolved;
    if own.Some? {
      return Unique(own.value);
    }
    if gop.None? || |gop.value| <= END_DEVICE_PATH_LENGTH {
      return Nothing;
    }
    match located {
      case LocateFails(code) =>
        return LocateFailed(code);
      case Handles(handles) =>
        found := SearchHandles(gop.value, handles);
    }
  }

  method SearchHandles(gop: Bytes, handles: seq<PciHandle>) returns (found: Found)
    requires |gop| > END_DEVICE_PATH_LENGTH
    ensures Resolved(gop, handles, found)
  {
    hide Depth;
    var best, bestSize, ambiguous := None, 0, false;
    ghost var at, rival := 0, 0;
    for index := 0 to |handles|
      invariant best.None? <==> bestSize == 0
      invariant forall i | 0 <= i < index :: Depth(gop, handles[i]) <= bestSize
      invariant best.None? ==> !ambiguous
      invariant best.Some? ==> 0 <= at < index && Depth(gop, handles[at]) == bestSize && handles[at].io == best
      invariant ambiguous ==> 0 <= rival < index && Depth(gop, handles[rival]) == bestSize && handles[rival].io != best
      invariant best.Some? && !ambiguous ==>
        forall i | 0 <= i < index && Depth(gop, handles[i]) == bestSize :: handles[i].io == best
    {
      var prefixSize := MatchedPrefix(gop, handles[index]);
      if prefixSize == 0 {
        continue;
      }
      if prefixSize > bestSize {
        best, bestSize, ambiguous := handles[index].io, prefixSize, false;
        at := index;
      } else if prefixSize == bestSize && best.Some? && handles[index].io != best {
        ambiguous := true;
        rival := index;
      }
    }
    assert best.Some? ==> Deepest(gop, handles, |handles|, at);
    assert ambiguous ==> Deepest(gop, handles, |handles|, rival);
    if best.None? || ambiguous {
      return if ambiguous then Ambiguous else Nothing;
    }
    return Unique(best.value);
  }

  /** The tests a handle has to pass, in their order. */
  method MatchedPrefix(gop: Bytes, h: PciHandle) returns (prefixSize: nat)
    requires |gop| > END_DEVICE_PATH_LENGTH
    ensures prefixSize == Depth(gop, h)
  {
    if h.path.None? || |h.path.value| <= END_DEVICE_PATH_LENGTH {
      return 0;
    }
    prefixSize := |h.path.value| - END_DEVICE_PATH_LENGTH;
    if prefixSize > |gop| - END_DEVICE_PATH_LENGTH || h.path.value[..prefixSize] != gop[..prefixSize] {
      return 0;
    }
    if h.io.None? {
      return 0;
    }
  }
}
