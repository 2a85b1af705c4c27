/**
 * The synthetic frame emitted after a SYN_DROPPED: a resumable diff from the state before
 * the resynchronisation to the state after it.
 */
module Compensation {
  import opened DeviceState
  import opened Events
  import opened Sequences
  import opened Wrappers

  datatype SyncState =
    | KeyTypes(time: TimeVal, start: u16)
    | Absolutes(time: TimeVal, start: u16)
    | Switches(time: TimeVal, start: u16)
    | Leds(time: TimeVal, start: u16)
  {
    function Class(): Class {
      match this
      case KeyTypes(_, _) => KeyClass
      case Absolutes(_, _) => AbsClass
      case Switches(_, _) => SwitchClass
      case Leds(_, _) => LedClass
    }

    function NextPhase(): SyncState
      requires !Leds?
    {
      match this
      case KeyTypes(t, _) => Absolutes(t, 0)
      case Absolutes(t, _) => Switches(t, 0)
      case Switches(t, _) => Leds(t, 0)
    }

    // The cursor never passes the end of its class's array.
    predicate InRange(caps: Caps) {
      start <= caps.Count(Class())
    }
  }

  predicate Differs(caps: Caps, prev: StateVal, cur: StateVal, slot: Slot) {
    caps.Supports(slot) && Get(prev, slot) != Get(cur, slot)
  }

  // The first differing code at or after `start`; Count when there is none.
  function NextDiff(caps: Caps, prev: StateVal, cur: StateVal, cls: Class, start: u16): (code: u16)
    requires start <= caps.Count(cls)
    ensures start <= code <= caps.Count(cls)
    ensures code < caps.Count(cls) ==> Differs(caps, prev, cur, Slot(cls, code))
    ensures forall c: u16 | start <= c < code :: !Differs(caps, prev, cur, Slot(cls, c))
    decreases caps.Count(cls) - start
  {
    if start == caps.Count(cls) || Differs(caps, prev, cur, Slot(cls, start)) then start
    else NextDiff(caps, prev, cur, cls, start + 1)
  }

  function SlotEvent(time: TimeVal, slot: Slot, value: i32): InputEvent {
    InputEvent(time, TypeOf(slot.cls), slot.code, value)
  }

  /** One call of `compensate_events` on a pending diff: the event and what stays pending. */
  function Compensate(caps: Caps, prev: StateVal, cur: StateVal, sync: SyncState): (r: (InputEvent, Option<SyncState>))
    requires sync.InRange(caps)
    ensures r.1.Some? ==> r.1.value.InRange(caps)
    decreases 3 - Rank(sync.Class())
  {
    var code := NextDiff(caps, prev, cur, sync.Class(), sync.start);
    if code < caps.Count(sync.Class()) then
      var slot := Slot(sync.Class(), code);
      (SlotEvent(sync.time, slot, Get(cur, slot)), Some(sync.(start := code + 1)))
    else if sync.Leds? then (Report(sync.time), None)
    else Compensate(caps, prev, cur, sync.NextPhase())
  }

  // What is still to be emitted, written down independently of the calls that emit it.

  function DiffSlots(caps: Caps, prev: StateVal, cur: StateVal, cls: Class, start: nat): seq<Slot>
    decreases caps.Count(cls) - start
  {
    if start >= caps.Count(cls) then []
    else (if Differs(caps, prev, cur, Slot(cls, start)) then [Slot(cls, start)] else [])
         + DiffSlots(caps, prev, cur, cls, start + 1)
  }

  function PendingSlots(caps: Caps, prev: StateVal, cur: StateVal, sync: SyncState): seq<Slot>
    decreases 3 - Rank(sync.Class()), 1
  {
    DiffSlots(caps, prev, cur, sync.Class(), sync.start) + LaterSlots(caps, prev, cur, sync)
  }

  function LaterSlots(caps: Caps, prev: StateVal, cur: StateVal, sync: SyncState): seq<Slot>
    decreases 3 - Rank(sync.Class()), 0
  {
    if sync.Leds? then [] else PendingSlots(caps, prev, cur, sync.NextPhase())
  }

  function SlotEvents(time: TimeVal, cur: StateVal, slots: seq<Slot>): seq<InputEvent> {
    seq(|slots|, i requires 0 <= i < |slots| => SlotEvent(time, slots[i], Get(cur, slots[i])))
  }

  /** The rest of the synthetic frame. */
  function PendingFrame(caps: Caps, prev: StateVal, cur: StateVal, sync: Option<SyncState>): seq<InputEvent> {
    if sync.None? then []
    else SlotEvents(sync.value.time, cur, PendingSlots(caps, prev, cur, sync.value)) + [Report(sync.value.time)]
  }

  // The order of emission.
  predicate SlotLess(a: Slot, b: Slot) {
    Rank(a.cls) < Rank(b.cls) || (a.cls == b.cls && a.code < b.code)
  }

  predicate AtOrAfter(sync: SyncState, slot: Slot) {
    !SlotLess(slot, Slot(sync.Class(), sync.start))
  }

  predicate Increasing(slots: seq<Slot>) {
    forall i, j | 0 <= i < j < |slots| :: SlotLess(slots[i], slots[j])
  }

  lemma UnfoldDiffSlots(caps: Caps, prev: StateVal, cur: StateVal, cls: Class, start: u16)
    requires start < caps.Count(cls)
    ensures var rest := DiffSlots(caps, prev, cur, cls, start + 1);
      DiffSlots(caps, prev, cur, cls, start) ==
        if Differs(caps, prev, cur, Slot(cls, start)) then [Slot(cls, start)] + rest else rest
  {
  }

  lemma {:induction false} SkipToNextDiff(caps: Caps, prev: StateVal, cur: StateVal, cls: Class, start: u16)
    requires start <= caps.Count(cls)
    ensures var n := NextDiff(caps, prev, cur, cls, start);
      DiffSlots(caps, prev, cur, cls, start) ==
      if n < caps.Count(cls) then [Slot(cls, n)] + DiffSlots(caps, prev, cur, cls, n + 1) else []
    decreases caps.Count(cls) - start
  {
    if start == caps.Count(cls) {
    } else {
      UnfoldDiffSlots(caps, prev, cur, cls, start);
      if !Differs(caps, prev, cur, Slot(cls, start)) { SkipToNextDiff(caps, prev, cur, cls, start + 1); }
    }
  }

  lemma PendingHere(caps: Caps, prev: StateVal, cur: StateVal, sync: SyncState, n: u16)
    requires sync.InRange(caps) && n == NextDiff(caps, prev, cur, sync.Class(), sync.start)
    requires n < caps.Count(sync.Class())
    ensures PendingSlots(caps, prev, cur, sync) ==
      [Slot(sync.Class(), n)] + PendingSlots(caps, prev, cur, sync.(start := n + 1))
  {
    var next := sync.(start := n + 1);
    SkipToNextDiff(caps, prev, cur, sync.Class(), sync.start);
    assert LaterSlots(caps, prev, cur, next) == LaterSlots(caps, prev, cur, sync);
    Associative([Slot(sync.Class(), n)], DiffSlots(caps, prev, cur, sync.Class(), n + 1),
      LaterSlots(caps, prev, cur, sync));
  }

  lemma PendingLater(caps: Caps, prev: StateVal, cur: StateVal, sync: SyncState)
    requires sync.InRange(caps)
    requires NextDiff(caps, prev, cur, sync.Class(), sync.start) == caps.Count(sync.Class())
    ensures PendingSlots(caps, prev, cur, sync) ==
      LaterSlots(caps, prev, cur, sync)
  {
    SkipToNextDiff(caps, prev, cur, sync.Class(), sync.start);
  }

  // Where a call leaves the cursor: past the slot it emitted, or done after the SYN_REPORT.
  predicate EmitsFirst(time: TimeVal, cur: StateVal, slots: seq<Slot>, ev: InputEvent, rest: Option<SyncState>) {
    if slots == [] then ev == Report(time) && rest.None?
    else
      && ev == SlotEvent(time, slots[0], Get(cur, slots[0]))
      && rest.Some? && rest.value.time == time
      && rest.value.Class() == slots[0].cls && rest.value.start == slots[0].code + 1
  }

  lemma {:induction false} CompensateSlots(caps: Caps, prev: StateVal, cur: StateVal, sync: SyncState)
    requires sync.InRange(caps)
    ensures var (ev, rest) := Compensate(caps, prev, cur, sync);
      var slots := PendingSlots(caps, prev, cur, sync);
      && EmitsFirst(sync.time, cur, slots, ev, rest)
      && (rest.Some? ==> PendingSlots(caps, prev, cur, rest.value) == slots[1..])
    decreases 3 - Rank(sync.Class())
  {
    var n := NextDiff(caps, prev, cur, sync.Class(), sync.start);
    if n < caps.Count(sync.Class()) {
      PendingHere(caps, prev, cur, sync, n);
    } else {
      PendingLater(caps, prev, cur, sync);
      if !sync.Leds? { CompensateSlots(caps, prev, cur, sync.NextPhase()); }
    }
  }

  /** Each call emits the head of the pending frame and leaves its tail. */
  lemma CompensateEmitsHead(caps: Caps, prev: StateVal, cur: StateVal, sync: SyncState)
    requires sync.InRange(caps)
    ensures var (ev, rest) := Compensate(caps, prev, cur, sync);
      PendingFrame(caps, prev, cur, Some(sync)) == [ev] + PendingFrame(caps, prev, cur, rest)
  {
    CompensateSlots(caps, prev, cur, sync);
    var slots := PendingSlots(caps, prev, cur, sync);
    if slots != [] { SlotEventsHead(sync.time, cur, slots); }
  }

  lemma SlotEventsHead(time: TimeVal, cur: StateVal, slots: seq<Slot>)
    requires slots != []
    ensures SlotEvents(time, cur, slots) + [Report(time)] ==
      [SlotEvent(time, slots[0], Get(cur, slots[0]))] + (SlotEvents(time, cur, slots[1..]) + [Report(time)])
  {
    assert slots == [slots[0]] + slots[1..];
  }

  lemma {:induction false} DiffSlotsOrdered(caps: Caps, prev: StateVal, cur: StateVal, cls: Class, start: nat)
    ensures var slots := DiffSlots(caps, prev, cur, cls, start);
      && Increasing(slots)
      && (forall s: Slot :: s in slots <==> s.cls == cls && start <= s.code && Differs(caps, prev, cur, s))
    decreases caps.Count(cls) - start
  {
    if start >= caps.Count(cls) {
    } else {
      hide Get;
      DiffSlotsOrdered(caps, prev, cur, cls, start + 1);
      var rest := DiffSlots(caps, prev, cur, cls, start + 1);
      assert forall i | 0 <= i < |rest| :: rest[i] in rest;
    }
  }

  lemma IncreasingConcat(a: seq<Slot>, b: seq<Slot>)
    requires Increasing(a) && Increasing(b)
    requires forall x, y | x in a && y in b :: SlotLess(x, y)
    ensures Increasing(a + b)
  {
    assert forall i | 0 <= i < |a| :: a[i] in a;
    assert forall i | 0 <= i < |b| :: b[i] in b;
  }

  /**
   * The pending slots are strictly increasing (keys, axes, switches, LEDs; codes rising) and
   * are exactly the supported slots from the cursor on whose two values differ.
   */
  lemma {:induction false} PendingSlotsExact(caps: Caps, prev: StateVal, cur: StateVal, sync: SyncState)
    ensures Increasing(PendingSlots(caps, prev, cur, sync))
    ensures forall s: Slot ::
      s in PendingSlots(caps, prev, cur, sync) <==> AtOrAfter(sync, s) && Differs(caps, prev, cur, s)
    decreases 3 - Rank(sync.Class())
  {
    var here := DiffSlots(caps, prev, cur, sync.Class(), sync.start);
    DiffSlotsOrdered(caps, prev, cur, sync.Class(), sync.start);
    if sync.Leds? {
      assert here + [] == here;
    } else {
      PendingSlotsExact(caps, prev, cur, sync.NextPhase());
      IncreasingConcat(here, PendingSlots(caps, prev, cur, sync.NextPhase()));
    }
  }

  lemma {:induction false} IncreasingCount(slots: seq<Slot>, members: set<Slot>)
    requires Increasing(slots)
    requires forall s: Slot :: s in slots <==> s in members
    ensures |members| == |slots|
  {
    if slots != [] {
      var last := slots[|slots| - 1];
      var init := slots[..|slots| - 1];
      assert last !in init by {
        assert forall i | 0 <= i < |init| :: SlotLess(init[i], last);
      }
      assert slots == init + [last];
      IncreasingCount(init, members - {last});
      assert last in members;
    } else {
      assert members == {} by { assert forall s :: s in members ==> s in slots; }
    }
  }

  lemma SlotEventRoundTrip(time: TimeVal, slot: Slot, value: i32)
    ensures EventSlot(SlotEvent(time, slot, value)) == Some(slot)
    ensures slot.cls == AbsClass || value == 0 || value == 1 ==> EventValue(SlotEvent(time, slot, value)) == value
    ensures !IsReport(SlotEvent(time, slot, value)) && !IsDropped(SlotEvent(time, slot, value))
  {
  }

  // What the kernel's header calls each class; its numbers rise in the order of emission.
  predicate TypeIs(ev: InputEvent, cls: Class) {
    match cls
    case KeyClass => ev.etype == 0x01
    case AbsClass => ev.etype == 0x03
    case SwitchClass => ev.etype == 0x05
    case LedClass => ev.etype == 0x11
  }

  // An event that tells the value a state holds in a slot, field by field.
  predicate Tells(ev: InputEvent, time: TimeVal, slot: Slot, s: StateVal) {
    && ev.time == time && ev.code == slot.code && TypeIs(ev, slot.cls)
    && match slot.cls
       case KeyClass => HasBit(s.keys, slot.code, ev.value)
       case AbsClass =>
         ev.value == if s.abs.Some? && slot.code < |s.abs.value| then s.abs.value[slot.code].value else 0
       case SwitchClass => HasBit(s.switches, slot.code, ev.value)
       case LedClass => HasBit(s.leds, slot.code, ev.value)
  }

  predicate HasBit(bits: Option<seq<bool>>, code: u16, value: i32) {
    value == if bits.Some? && code < |bits.value| && bits.value[code] then 1 else 0
  }

  // The SYN_REPORT that ends a frame, field by field.
  predicate Closes(ev: InputEvent, time: TimeVal) {
    ev.time == time && ev.etype == 0x00 && ev.code == 0 && ev.value == 0
  }

  lemma SlotEventTells(time: TimeVal, slot: Slot, s: StateVal)
    ensures Tells(SlotEvent(time, slot, Get(s, slot)), time, slot, s)
  {
  }

  /**
   * One call, from any cursor, on the fields of the event: it carries the time of the
   * resynchronisation, tells the new value of the first slot still to come that differs, or
   * closes the frame when none does.
   */
  lemma CompensateTells(caps: Caps, prev: StateVal, cur: StateVal, sync: SyncState)
    requires sync.InRange(caps)
    ensures var (ev, rest) := Compensate(caps, prev, cur, sync);
      && (rest.Some? ==>
            exists slot: Slot ::
              && Tells(ev, sync.time, slot, cur) && Differs(caps, prev, cur, slot) && AtOrAfter(sync, slot)
              && (forall other: Slot | AtOrAfter(sync, other) && Differs(caps, prev, cur, other) ::
                    !SlotLess(other, slot))
              && (forall other: Slot :: AtOrAfter(rest.value, other) <==> SlotLess(slot, other))
              && rest.value.time == sync.time)
      && (rest.None? ==>
            && Closes(ev, sync.time)
            && forall other: Slot | AtOrAfter(sync, other) :: !Differs(caps, prev, cur, other))
  {
    CompensateSlots(caps, prev, cur, sync);
    PendingSlotsExact(caps, prev, cur, sync);
    var slots := PendingSlots(caps, prev, cur, sync);
    if slots == [] {
      assert forall other: Slot :: other !in slots;
    } else {
      var first := slots[0];
      assert first in slots;
      SlotEventTells(sync.time, first, cur);
      FirstIsLeast(slots);
    }
  }

  lemma FirstIsLeast(slots: seq<Slot>)
    requires slots != [] && Increasing(slots)
    ensures forall other | other in slots :: !SlotLess(other, slots[0])
  {
  }

  ghost predicate TellsOfOne(ev: InputEvent, time: TimeVal, slots: set<Slot>, s: StateVal) {
    exists slot: Slot | slot in slots :: Tells(ev, time, slot, s)
  }

  // Every event but the last tells of a slot in the set.
  ghost predicate OnlyTold(frame: seq<InputEvent>, time: TimeVal, slots: set<Slot>, s: StateVal) {
    forall i | 0 <= i < |frame| - 1 :: TellsOfOne(frame[i], time, slots, s)
  }

  // Every slot in the set is told of.
  ghost predicate AllTold(frame: seq<InputEvent>, time: TimeVal, slots: set<Slot>, s: StateVal) {
    forall slot: Slot | slot in slots :: exists i | 0 <= i < |frame| - 1 :: Tells(frame[i], time, slot, s)
  }

  // Types and then codes strictly rise, up to the closing event.
  predicate Rising(frame: seq<InputEvent>) {
    forall i, j | 0 <= i < j < |frame| - 1 ::
      frame[i].etype < frame[j].etype || (frame[i].etype == frame[j].etype && frame[i].code < frame[j].code)
  }

  /**
   * The whole synthetic frame, from a fresh cursor, on the fields of its events: one event per
   * differing supported slot and no other, each carrying the new value and the time of the
   * resynchronisation, types and then codes strictly rising, closed by one SYN_REPORT of the
   * same time.
   */
  lemma SyntheticFrameExact(caps: Caps, prev: StateVal, cur: StateVal, time: TimeVal, differing: set<Slot>)
    requires forall s: Slot :: s in differing <==> Differs(caps, prev, cur, s)
    ensures var frame := PendingFrame(caps, prev, cur, Some(KeyTypes(time, 0)));
      && |frame| == |differing| + 1 && Closes(frame[|frame| - 1], time)
      && OnlyTold(frame, time, differing, cur) && AllTold(frame, time, differing, cur) && Rising(frame)
  {
    var slots := PendingSlots(caps, prev, cur, KeyTypes(time, 0));
    var frame := PendingFrame(caps, prev, cur, Some(KeyTypes(time, 0)));
    PendingSlotsExact(caps, prev, cur, KeyTypes(time, 0));
    IncreasingCount(slots, differing);
    FrameTells(caps, prev, cur, time);
    ToldInOrder(frame, time, slots, differing, cur);
  }

  lemma ToldInOrder(frame: seq<InputEvent>, time: TimeVal, slots: seq<Slot>, members: set<Slot>, s: StateVal)
    requires |frame| == |slots| + 1 && Increasing(slots) && forall slot: Slot :: slot in slots <==> slot in members
    requires forall i | 0 <= i < |slots| :: Tells(frame[i], time, slots[i], s)
    ensures OnlyTold(frame, time, members, s) && AllTold(frame, time, members, s) && Rising(frame)
  {
    forall i | 0 <= i < |frame| - 1 ensures TellsOfOne(frame[i], time, members, s) {
      assert slots[i] in slots && Tells(frame[i], time, slots[i], s);
    }
    forall slot: Slot | slot in members ensures exists i | 0 <= i < |frame| - 1 :: Tells(frame[i], time, slot, s) {
      var i :| 0 <= i < |slots| && slots[i] == slot;
      assert Tells(frame[i], time, slot, s);
    }
    forall i, j | 0 <= i < j < |frame| - 1
      ensures frame[i].etype < frame[j].etype || (frame[i].etype == frame[j].etype && frame[i].code < frame[j].code)
    {
      TellsRising(frame[i], frame[j], time, slots[i], slots[j], s);
    }
  }

  lemma FrameTells(caps: Caps, prev: StateVal, cur: StateVal, time: TimeVal)
    ensures var slots := PendingSlots(caps, prev, cur, KeyTypes(time, 0));
      var frame := PendingFrame(caps, prev, cur, Some(KeyTypes(time, 0)));
      && |frame| == |slots| + 1 && Closes(frame[|slots|], time)
      && forall i | 0 <= i < |slots| :: Tells(frame[i], time, slots[i], cur)
  {
    var slots := PendingSlots(caps, prev, cur, KeyTypes(time, 0));
    forall i | 0 <= i < |slots| ensures Tells(SlotEvent(time, slots[i], Get(cur, slots[i])), time, slots[i], cur) {
      SlotEventTells(time, slots[i], cur);
    }
  }

  lemma TellsRising(a: InputEvent, b: InputEvent, time: TimeVal, s: Slot, t: Slot, cur: StateVal)
    requires Tells(a, time, s, cur) && Tells(b, time, t, cur) && SlotLess(s, t)
    ensures a.etype < b.etype || (a.etype == b.etype && a.code < b.code)
  {
  }

  lemma BitClassValues(s: StateVal, slot: Slot)
    ensures slot.cls != AbsClass ==> Get(s, slot) == 0 || Get(s, slot) == 1
  {
  }

  /** What the pending frame writes to a slot. */
  lemma PendingLastWrite(caps: Caps, prev: StateVal, cur: StateVal, sync: SyncState, slot: Slot)
    ensures LastWrite(PendingFrame(caps, prev, cur, Some(sync)), slot) ==
      if AtOrAfter(sync, slot) && Differs(caps, prev, cur, slot) then Some(Get(cur, slot)) else None
  {
    var slots := PendingSlots(caps, prev, cur, sync);
    var evs := SlotEvents(sync.time, cur, slots);
    PendingSlotsExact(caps, prev, cur, sync);
    SlotEventsLastWrite(sync.time, cur, slots, slot);
    var frame := evs + [Report(sync.time)];
    assert frame[..|frame| - 1] == evs;
  }

  lemma {:induction false} SlotEventsLastWrite(time: TimeVal, cur: StateVal, slots: seq<Slot>, slot: Slot)
    ensures LastWrite(SlotEvents(time, cur, slots), slot) == if slot in slots then Some(Get(cur, slot)) else None
  {
    if slots == [] {
    } else {
      var init, last := slots[..|slots| - 1], slots[|slots| - 1];
      var evs := SlotEvents(time, cur, slots);
      assert evs[..|evs| - 1] == SlotEvents(time, cur, init);
      SlotEventsLastWrite(time, cur, init, slot);
      SlotEventRoundTrip(time, last, Get(cur, last));
      BitClassValues(cur, last);
      assert slots == init + [last];
    }
  }

  /**
   * Diff then patch: folding the synthetic frame over the state it was computed from reaches
   * the new state in every supported slot of the classes followed, and touches no other.
   */
  lemma DiffThenPatch(follow: set<Class>, caps: Caps, prev: StateVal, cur: StateVal, time: TimeVal, slot: Slot)
    requires Fits(caps, prev) && slot.cls in follow
    ensures Get(Fold(follow, prev, PendingFrame(caps, prev, cur, Some(KeyTypes(time, 0)))), slot) ==
      if caps.Supports(slot) then Get(cur, slot) else Get(prev, slot)
  {
    var frame := PendingFrame(caps, prev, cur, Some(KeyTypes(time, 0)));
    PendingLastWrite(caps, prev, cur, KeyTypes(time, 0), slot);
    assert Length(prev, slot.cls).Some? <==> caps.Supported(slot.cls).Some?;
    if Length(prev, slot.cls).Some? && slot.code < Length(prev, slot.cls).value {
      GetFold(follow, prev, frame, slot);
    } else {
      FoldKeepsShape(follow, prev, frame);
      assert Length(Fold(follow, prev, frame), slot.cls) == Length(prev, slot.cls);
    }
  }

  /**
   * A consumer that folds the synthetic frame into its own view agrees with the new state in
   * a supported slot exactly when it agreed before or the cached value changed. A slot whose
   * value the cache took from a suppressed frame can fail both, and then stays wrong.
   */
  lemma ConsumerAgreesIff(
      follow: set<Class>, caps: Caps, view: StateVal, prev: StateVal, cur: StateVal, time: TimeVal, slot: Slot)
    requires Fits(caps, view) && slot.cls in follow && caps.Supports(slot)
    ensures
      Get(Fold(follow, view, PendingFrame(caps, prev, cur, Some(KeyTypes(time, 0)))), slot) == Get(cur, slot)
      <==> Get(view, slot) == Get(cur, slot) || Get(prev, slot) != Get(cur, slot)
  {
    PendingLastWrite(caps, prev, cur, KeyTypes(time, 0), slot);
    assert Length(view, slot.cls) == Some(|caps.Supported(slot.cls).value|);
    GetFold(follow, view, PendingFrame(caps, prev, cur, Some(KeyTypes(time, 0))), slot);
  }

  // Two previous states no pending diff can tell apart.
  ghost predicate AgreeFrom(caps: Caps, p: StateVal, q: StateVal, sync: SyncState) {
    forall slot: Slot | caps.Supports(slot) && AtOrAfter(sync, slot) :: Get(p, slot) == Get(q, slot)
  }

  lemma {:induction false} DiffSlotsDependOn(
      caps: Caps, p: StateVal, q: StateVal, cur: StateVal, cls: Class, start: nat)
    requires forall slot: Slot | caps.Supports(slot) && slot.cls == cls && start <= slot.code ::
      Get(p, slot) == Get(q, slot)
    ensures DiffSlots(caps, p, cur, cls, start) == DiffSlots(caps, q, cur, cls, start)
    decreases caps.Count(cls) - start
  {
    if start >= caps.Count(cls) {
    } else {
      DiffSlotsDependOn(caps, p, q, cur, cls, start + 1);
      assert Differs(caps, p, cur, Slot(cls, start)) == Differs(caps, q, cur, Slot(cls, start));
    }
  }

  /** Later output depends on the previous state only from the cursor on. */
  lemma {:induction false} PendingDependsOn(caps: Caps, p: StateVal, q: StateVal, cur: StateVal, sync: SyncState)
    requires AgreeFrom(caps, p, q, sync)
    ensures PendingSlots(caps, p, cur, sync) == PendingSlots(caps, q, cur, sync)
    ensures PendingFrame(caps, p, cur, Some(sync)) == PendingFrame(caps, q, cur, Some(sync))
    decreases 3 - Rank(sync.Class())
  {
    DiffSlotsDependOn(caps, p, q, cur, sync.Class(), sync.start);
    if !sync.Leds? {
      PendingDependsOn(caps, p, q, cur, sync.NextPhase());
    }
  }

  lemma {:induction false} CompensateDependsOn(caps: Caps, p: StateVal, q: StateVal, cur: StateVal, sync: SyncState)
    requires sync.InRange(caps) && AgreeFrom(caps, p, q, sync)
    ensures Compensate(caps, p, cur, sync) == Compensate(caps, q, cur, sync)
    decreases 3 - Rank(sync.Class())
  {
    var m, n := NextDiff(caps, p, cur, sync.Class(), sync.start), NextDiff(caps, q, cur, sync.Class(), sync.start);
    assert m < n ==> !Differs(caps, q, cur, Slot(sync.Class(), m));
    assert n < m ==> !Differs(caps, p, cur, Slot(sync.Class(), n));
    assert m < caps.Count(sync.Class()) ==> AtOrAfter(sync, Slot(sync.Class(), m));
    assert n < caps.Count(sync.Class()) ==> AtOrAfter(sync, Slot(sync.Class(), n));
    if m == caps.Count(sync.Class()) && !sync.Leds? {
      CompensateDependsOn(caps, p, q, cur, sync.NextPhase());
    }
  }

  /**
   * The cursor has passed the slot of every event it emitted, so folding emitted events into
   * the previous state (as the iterator does) or not (as the async stream does) makes no
   * difference to the rest of the frame.
   */
  lemma FoldingEmittedIsInvisible(caps: Caps, p: StateVal, q: StateVal, cur: StateVal, sync: SyncState)
    requires sync.InRange(caps) && AgreeFrom(caps, p, q, sync)
    ensures var (ev, rest) := Compensate(caps, p, cur, sync);
      rest.Some? ==> AgreeFrom(caps, Update(TRACKED, p, ev), q, rest.value)
  {
    CompensateSlots(caps, p, cur, sync);
    PendingSlotsExact(caps, p, cur, sync);
    var (ev, rest) := Compensate(caps, p, cur, sync);
    if rest.Some? {
      var slots := PendingSlots(caps, p, cur, sync);
      assert slots[0] in slots;
      SlotEventRoundTrip(sync.time, slots[0], Get(cur, slots[0]));
      forall slot: Slot | caps.Supports(slot) && AtOrAfter(rest.value, slot)
        ensures Get(Update(TRACKED, p, ev), slot) == Get(q, slot)
      {
        assert AtOrAfter(sync, slot);
        GetPut(p, slots[0], EventValue(ev), slot);
      }
    }
  }

  lemma PendingAfterEmit(caps: Caps, prev: StateVal, cur: StateVal, sync: SyncState)
    requires sync.InRange(caps)
    ensures var (ev, rest) := Compensate(caps, prev, cur, sync);
      PendingFrame(caps, prev, cur, Some(sync)) == [ev] + PendingFrame(caps, Update(TRACKED, prev, ev), cur, rest)
  {
    var (ev, rest) := Compensate(caps, prev, cur, sync);
    CompensateEmitsHead(caps, prev, cur, sync);
    FoldingEmittedIsInvisible(caps, prev, prev, cur, sync);
    if rest.Some? { PendingDependsOn(caps, Update(TRACKED, prev, ev), prev, cur, rest.value); }
  }

  // Every slot the cursor has passed already holds its new value.
  ghost predicate AgreeBelow(caps: Caps, prev: StateVal, cur: StateVal, sync: Option<SyncState>) {
    forall slot: Slot | slot.cls in TRACKED && caps.Supports(slot) && (sync.Some? ==> !AtOrAfter(sync.value, slot)) ::
      Get(prev, slot) == Get(cur, slot)
  }

  /**
   * Mid-run, the code's own folding of each emitted event into `prev_state` keeps every
   * followed slot below the cursor equal to the new state, and all of them once the
   * SYN_REPORT is out.
   */
  lemma FoldingEmittedCatchesUp(caps: Caps, prev: StateVal, cur: StateVal, sync: SyncState)
    requires sync.InRange(caps) && Fits(caps, prev) && AgreeBelow(caps, prev, cur, Some(sync))
    ensures var (ev, rest) := Compensate(caps, prev, cur, sync);
      AgreeBelow(caps, Update(TRACKED, prev, ev), cur, rest)
  {
    CompensateSlots(caps, prev, cur, sync);
    PendingSlotsExact(caps, prev, cur, sync);
    var (ev, rest) := Compensate(caps, prev, cur, sync);
    var slots := PendingSlots(caps, prev, cur, sync);
    forall slot: Slot | slot.cls in TRACKED && caps.Supports(slot) && (rest.Some? ==> !AtOrAfter(rest.value, slot))
      ensures Get(Update(TRACKED, prev, ev), slot) == Get(cur, slot)
    {
      if slots == [] {
        assert slot !in slots;
        assert EventSlot(ev) == None;
      } else {
        FirstCatchesUp(caps, prev, cur, slots, sync.time, slot);
      }
    }
  }

  lemma FirstCatchesUp(caps: Caps, prev: StateVal, cur: StateVal, slots: seq<Slot>, time: TimeVal, slot: Slot)
    requires Fits(caps, prev) && slots != [] && Increasing(slots)
    requires slot.cls in TRACKED && caps.Supports(slot) && !SlotLess(slots[0], slot)
    requires slot in slots || Get(prev, slot) == Get(cur, slot)
    ensures Get(Update(TRACKED, prev, SlotEvent(time, slots[0], Get(cur, slots[0]))), slot) == Get(cur, slot)
  {
    var ev := SlotEvent(time, slots[0], Get(cur, slots[0]));
    assert Length(prev, slot.cls) == Some(|caps.Supported(slot.cls).value|);
    GetUpdate(TRACKED, prev, ev, slot);
    SlotEventRoundTrip(time, slots[0], Get(cur, slots[0]));
    BitClassValues(cur, slots[0]);
    if slot in slots {
      var i :| 0 <= i < |slots| && slots[i] == slot;
      assert i == 0;
    }
  }
}
