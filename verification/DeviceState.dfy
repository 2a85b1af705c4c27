/**
 * The cached device state. `StateVal` is its value, read one slot (class and code) at a
 * time; the class `DeviceState` is the record the engine updates in place.
 */
module DeviceState {
  import opened Events
  import opened Wrappers

  datatype AbsInfo = AbsInfo(value: i32, minimum: i32, maximum: i32, fuzz: i32, flat: i32, resolution: i32)

  const ABSINFO_ZERO := AbsInfo(0, 0, 0, 0, 0, 0)
  const UNIX_EPOCH := TimeVal(0, 0)

  // The four classes a snapshot covers, in the order compensation visits them.
  datatype Class = KeyClass | AbsClass | SwitchClass | LedClass

  datatype Slot = Slot(cls: Class, code: u16)

  const ALL: set<Class> := {KeyClass, AbsClass, SwitchClass, LedClass}
  // The classes `process_event` follows.
  const TRACKED: set<Class> := {KeyClass, AbsClass}

  function Rank(cls: Class): nat {
    match cls
    case KeyClass => 0
    case AbsClass => 1
    case SwitchClass => 2
    case LedClass => 3
  }

  // The array length of each class; the kernel's ABS_CNT, KEY_CNT and so on.
  datatype Counts = Counts(keys: u16, abs: u16, switches: u16, leds: u16) {
    function Of(cls: Class): u16 {
      match cls
      case KeyClass => keys
      case AbsClass => abs
      case SwitchClass => switches
      case LedClass => leds
    }
  }

  /**
   * What the kernel reported when the device was opened: the event types (EVIOCGBIT 0), the
   * array length of each class, and the codes supported in each class.
   */
  datatype CapsRecord = CapsRecord(
    types: set<u16>,
    counts: Counts,
    keys: Option<seq<bool>>,
    abs: Option<seq<bool>>,
    switches: Option<seq<bool>>,
    leds: Option<seq<bool>>)
  {
    function Supported(cls: Class): Option<seq<bool>> {
      match cls
      case KeyClass => keys
      case AbsClass => abs
      case SwitchClass => switches
      case LedClass => leds
    }

    // Codes run below Count; it is zero for a class the device lacks.
    function Count(cls: Class): nat {
      if Supported(cls).Some? then |Supported(cls).value| else 0
    }

    predicate Supports(slot: Slot) {
      slot.code < Count(slot.cls) && Supported(slot.cls).value[slot.code]
    }

    // A bitmap exists exactly for the reported types and has the class's array length. Lengths
    // fit a u16, so one past the last code does too.
    predicate Valid() {
      forall cls: Class ::
        && (Supported(cls).Some? <==> TypeOf(cls) in types)
        && (Supported(cls).Some? ==> |Supported(cls).value| == counts.Of(cls))
    }
  }

  type Caps = c: CapsRecord | c.Valid() witness CapsRecord({}, Counts(0, 0, 0, 0), None, None, None, None)

  function TypeOf(cls: Class): u16 {
    match cls
    case KeyClass => EV_KEY
    case AbsClass => EV_ABS
    case SwitchClass => EV_SW
    case LedClass => EV_LED
  }

  datatype StateVal = StateVal(
    timestamp: TimeVal,
    keys: Option<seq<bool>>,
    abs: Option<seq<AbsInfo>>,
    switches: Option<seq<bool>>,
    leds: Option<seq<bool>>)

  function BitAt(bits: Option<seq<bool>>, code: u16): i32 {
    if bits.Some? && code < |bits.value| && bits.value[code] then 1 else 0
  }

  function ValueAt(vals: Option<seq<AbsInfo>>, code: u16): i32 {
    if vals.Some? && code < |vals.value| then vals.value[code].value else 0
  }

  function Get(s: StateVal, slot: Slot): i32 {
    match slot.cls
    case KeyClass => BitAt(s.keys, slot.code)
    case AbsClass => ValueAt(s.abs, slot.code)
    case SwitchClass => BitAt(s.switches, slot.code)
    case LedClass => BitAt(s.leds, slot.code)
  }

  function PutBit(bits: Option<seq<bool>>, code: u16, value: i32): Option<seq<bool>> {
    if bits.Some? && code < |bits.value| then Some(bits.value[code := value != 0]) else bits
  }

  function PutValue(vals: Option<seq<AbsInfo>>, code: u16, value: i32): Option<seq<AbsInfo>> {
    if vals.Some? && code < |vals.value| then Some(vals.value[code := vals.value[code].(value := value)]) else vals
  }

  function Put(s: StateVal, slot: Slot, value: i32): StateVal {
    match slot.cls
    case KeyClass => s.(keys := PutBit(s.keys, slot.code, value))
    case AbsClass => s.(abs := PutValue(s.abs, slot.code, value))
    case SwitchClass => s.(switches := PutBit(s.switches, slot.code, value))
    case LedClass => s.(leds := PutBit(s.leds, slot.code, value))
  }

  function Length(s: StateVal, cls: Class): Option<nat> {
    match cls
    case KeyClass => if s.keys.Some? then Some(|s.keys.value|) else None
    case AbsClass => if s.abs.Some? then Some(|s.abs.value|) else None
    case SwitchClass => if s.switches.Some? then Some(|s.switches.value|) else None
    case LedClass => if s.leds.Some? then Some(|s.leds.value|) else None
  }

  // Every code of every class fits a u16.
  predicate Bounded(s: StateVal) {
    forall cls: Class :: Length(s, cls).Some? ==> Length(s, cls).value <= 0x1_0000
  }

  predicate SameShape(s: StateVal, t: StateVal) {
    forall cls: Class :: Length(s, cls) == Length(t, cls)
  }

  // The arrays the state holds are those of the device's supported classes.
  predicate Fits(caps: Caps, s: StateVal) {
    forall cls: Class ::
      Length(s, cls) == if caps.Supported(cls).Some? then Some(|caps.Supported(cls).value|) else None
  }

  // The slot an event writes, when it belongs to one of the four classes.
  function EventSlot(ev: InputEvent): Option<Slot> {
    match Destructure(ev)
    case Key(code, _) => Some(Slot(KeyClass, code))
    case AbsoluteAxis(code, _) => Some(Slot(AbsClass, code))
    case Switch(code, _) => Some(Slot(SwitchClass, code))
    case Led(code, _) => Some(Slot(LedClass, code))
    case _ => None
  }

  // The value it leaves there: any non-zero value of a bit class sets the bit.
  function EventValue(ev: InputEvent): i32 {
    if ev.etype == EV_ABS then ev.value else if ev.value != 0 then 1 else 0
  }

  // `Update(TRACKED, ..)` is `process_event`; `Update(ALL, ..)` follows all four classes.
  function Update(follow: set<Class>, s: StateVal, ev: InputEvent): StateVal {
    var slot := EventSlot(ev);
    if slot.Some? && slot.value.cls in follow then Put(s, slot.value, EventValue(ev)) else s
  }

  function Fold(follow: set<Class>, s: StateVal, evs: seq<InputEvent>): StateVal {
    if evs == [] then s else Update(follow, Fold(follow, s, evs[..|evs| - 1]), evs[|evs| - 1])
  }

  // The last value `evs` writes to a slot, if any.
  function LastWrite(evs: seq<InputEvent>, slot: Slot): Option<i32> {
    if evs == [] then None
    else if EventSlot(evs[|evs| - 1]) == Some(slot) then Some(EventValue(evs[|evs| - 1]))
    else LastWrite(evs[..|evs| - 1], slot)
  }

  // An event `process_event` accepts without hitting an `expect` or an index out of range.
  predicate Accepts(caps: Caps, ev: InputEvent) {
    var slot := EventSlot(ev);
    slot.Some? && slot.value.cls in TRACKED ==> slot.value.code < caps.Count(slot.value.cls)
  }

  function OrElse(a: Option<i32>, b: i32): i32 {
    if a.Some? then a.value else b
  }

  lemma GetPut(s: StateVal, slot: Slot, value: i32, other: Slot)
    ensures SameShape(Put(s, slot, value), s)
    ensures other != slot ==> Get(Put(s, slot, value), other) == Get(s, other)
    ensures Length(s, slot.cls).Some? && slot.code < Length(s, slot.cls).value ==>
      Get(Put(s, slot, value), slot) == if slot.cls == AbsClass || value == 0 then value else 1
  {
  }

  lemma GetUpdate(follow: set<Class>, s: StateVal, ev: InputEvent, slot: Slot)
    requires slot.cls in follow
    requires Length(s, slot.cls).Some? && slot.code < Length(s, slot.cls).value
    ensures Get(Update(follow, s, ev), slot) == if EventSlot(ev) == Some(slot) then EventValue(ev) else Get(s, slot)
  {
    var w := EventSlot(ev);
    if w.Some? { GetPut(s, w.value, EventValue(ev), slot); }
  }

  lemma UpdateKeepsShape(follow: set<Class>, s: StateVal, ev: InputEvent)
    ensures SameShape(Update(follow, s, ev), s)
  {
    var w := EventSlot(ev);
    if w.Some? { GetPut(s, w.value, EventValue(ev), w.value); }
  }

  lemma {:induction false} FoldKeepsShape(follow: set<Class>, s: StateVal, evs: seq<InputEvent>)
    ensures SameShape(Fold(follow, s, evs), s)
  {
    if evs == [] {
    } else {
      var init := evs[..|evs| - 1];
      FoldKeepsShape(follow, s, init);
      UpdateKeepsShape(follow, Fold(follow, s, init), evs[|evs| - 1]);
    }
  }

  /** Reading a folded state: the last write to the slot wins. */
  lemma {:induction false} GetFold(follow: set<Class>, s: StateVal, evs: seq<InputEvent>, slot: Slot)
    requires slot.cls in follow
    requires Length(s, slot.cls).Some? && slot.code < Length(s, slot.cls).value
    ensures Get(Fold(follow, s, evs), slot) == OrElse(LastWrite(evs, slot), Get(s, slot))
  {
    if evs == [] {
    } else {
      var init := evs[..|evs| - 1];
      GetFold(follow, s, init, slot);
      FoldKeepsShape(follow, s, init);
      GetUpdate(follow, Fold(follow, s, init), evs[|evs| - 1], slot);
    }
  }

  lemma {:induction false} FoldConcat(follow: set<Class>, s: StateVal, a: seq<InputEvent>, b: seq<InputEvent>)
    ensures Fold(follow, s, a + b) == Fold(follow, Fold(follow, s, a), b)
    decreases |b|
  {
    if b == [] {
      assert a + b == a;
    } else {
      var init := b[..|b| - 1];
      assert (a + b)[..|a + b| - 1] == a + init;
      FoldConcat(follow, s, a, init);
    }
  }

  lemma FoldOne(follow: set<Class>, s: StateVal, ev: InputEvent)
    ensures Fold(follow, s, [ev]) == Update(follow, s, ev)
  {
    assert [ev][..0] == [];
  }

  lemma {:induction false} LastWriteConcat(a: seq<InputEvent>, b: seq<InputEvent>, slot: Slot)
    ensures LastWrite(a + b, slot) == if LastWrite(b, slot).Some? then LastWrite(b, slot) else LastWrite(a, slot)
    decreases |b|
  {
    if b == [] {
      assert a + b == a;
    } else {
      var init := b[..|b| - 1];
      assert (a + b)[..|a + b| - 1] == a + init;
      LastWriteConcat(a, init, slot);
    }
  }

  lemma {:induction false} LastWriteOccurs(evs: seq<InputEvent>, slot: Slot)
    ensures LastWrite(evs, slot).Some? <==> exists i | 0 <= i < |evs| :: EventSlot(evs[i]) == Some(slot)
  {
    if evs == [] {
    } else {
      var init := evs[..|evs| - 1];
      LastWriteOccurs(init, slot);
      assert forall i | 0 <= i < |init| :: init[i] == evs[i];
    }
  }

  // The event is one of a class, for a code, in the kernel's own numbers.
  predicate IsFor(ev: InputEvent, cls: Class, code: u16) {
    && ev.code == code
    && match cls
       case KeyClass => ev.etype == 0x01
       case AbsClass => ev.etype == 0x03
       case SwitchClass => ev.etype == 0x05
       case LedClass => ev.etype == 0x11
  }

  predicate LastFor(evs: seq<InputEvent>, cls: Class, code: u16, i: nat) {
    && i < |evs| && IsFor(evs[i], cls, code)
    && forall j | i < j < |evs| :: !IsFor(evs[j], cls, code)
  }

  /**
   * One event on the fields of the state: a bit becomes whether the value is non-zero, an axis
   * takes the value and keeps the rest of its record, and nothing else changes.
   */
  lemma UpdateFields(follow: set<Class>, s: StateVal, ev: InputEvent)
    ensures var t := Update(follow, s, ev); var bit := ev.value != 0;
      && t.timestamp == s.timestamp
      && t.keys == (if KeyClass in follow && ev.etype == 0x01 then SetBit(s.keys, ev.code, bit) else s.keys)
      && t.switches ==
           (if SwitchClass in follow && ev.etype == 0x05 then SetBit(s.switches, ev.code, bit) else s.switches)
      && t.leds == (if LedClass in follow && ev.etype == 0x11 then SetBit(s.leds, ev.code, bit) else s.leds)
      && (t.abs.Some? <==> s.abs.Some?)
      && (s.abs.Some? ==>
            && |t.abs.value| == |s.abs.value|
            && forall k | 0 <= k < |s.abs.value| ::
                 t.abs.value[k] ==
                 if AbsClass in follow && ev.etype == 0x03 && ev.code as int == k
                 then s.abs.value[k].(value := ev.value)
                 else s.abs.value[k])
  {
  }

  function SetBit(bits: Option<seq<bool>>, code: u16, on: bool): Option<seq<bool>> {
    if bits.Some? && code < |bits.value| then Some(bits.value[code := on]) else bits
  }

  // What an event for a class leaves in its slot.
  function ValueLeft(ev: InputEvent, cls: Class): i32 {
    if cls == AbsClass then ev.value else if ev.value != 0 then 1 else 0
  }

  // What the last event for a slot, if there is one, makes the slot read.
  ghost predicate ReadsLast(evs: seq<InputEvent>, slot: Slot, before: i32, after: i32) {
    && (forall i: nat | LastFor(evs, slot.cls, slot.code, i) :: after == ValueLeft(evs[i], slot.cls))
    && ((forall i | 0 <= i < |evs| :: !IsFor(evs[i], slot.cls, slot.code)) ==> after == before)
  }

  /**
   * A whole fold, told by the events' own fields: a followed key, switch or LED reads whether
   * its last event had a non-zero value, an axis reads the value of its last event, and a slot
   * without events reads what it did before.
   */
  lemma {:induction false} FoldReadsLast(follow: set<Class>, s: StateVal, evs: seq<InputEvent>, slot: Slot)
    requires slot.cls in follow
    requires Length(s, slot.cls).Some? && slot.code < Length(s, slot.cls).value
    ensures ReadsLast(evs, slot, Get(s, slot), Get(Fold(follow, s, evs), slot))
  {
    if evs == [] {
    } else {
      hide ReadsLast, IsFor, ValueLeft, Get, Length, Update;
      var init, ev := evs[..|evs| - 1], evs[|evs| - 1];
      FoldReadsLast(follow, s, init, slot);
      FoldKeepsShape(follow, s, init);
      UpdateReads(follow, Fold(follow, s, init), ev, slot);
      assert evs == init + [ev];
      ReadsLastSnoc(init, ev, slot, Get(s, slot), Get(Fold(follow, s, init), slot), Get(Fold(follow, s, evs), slot));
    }
  }

  lemma UpdateReads(follow: set<Class>, s: StateVal, ev: InputEvent, slot: Slot)
    requires slot.cls in follow
    requires Length(s, slot.cls).Some? && slot.code < Length(s, slot.cls).value
    ensures Get(Update(follow, s, ev), slot) ==
      if IsFor(ev, slot.cls, slot.code) then ValueLeft(ev, slot.cls) else Get(s, slot)
  {
    GetUpdate(follow, s, ev, slot);
  }

  lemma ReadsLastSnoc(init: seq<InputEvent>, ev: InputEvent, slot: Slot, before: i32, mid: i32, after: i32)
    requires ReadsLast(init, slot, before, mid)
    requires after == if IsFor(ev, slot.cls, slot.code) then ValueLeft(ev, slot.cls) else mid
    ensures ReadsLast(init + [ev], slot, before, after)
  {
    var evs := init + [ev];
    assert forall i | 0 <= i < |init| :: evs[i] == init[i];
    forall i: nat | LastFor(evs, slot.cls, slot.code, i) ensures after == ValueLeft(evs[i], slot.cls) {
      if i < |init| {
        assert !IsFor(evs[|init|], slot.cls, slot.code);
        assert LastFor(init, slot.cls, slot.code, i);
      }
    }
    if forall i | 0 <= i < |evs| :: !IsFor(evs[i], slot.cls, slot.code) {
      assert !IsFor(evs[|init|], slot.cls, slot.code);
    }
  }

  // Everything of a state that no event can change.
  predicate SameBackground(follow: set<Class>, s: StateVal, t: StateVal) {
    && s.timestamp == t.timestamp
    && SameShape(s, t)
    && (forall cls: Class, code: u16 | cls !in follow :: Get(s, Slot(cls, code)) == Get(t, Slot(cls, code)))
    && (s.abs.Some? && t.abs.Some? && |s.abs.value| == |t.abs.value| ==>
      forall i | 0 <= i < |s.abs.value| :: s.abs.value[i].(value := 0) == t.abs.value[i].(value := 0))
  }

  lemma UpdateKeepsBackground(follow: set<Class>, s: StateVal, ev: InputEvent)
    ensures SameBackground(follow, Update(follow, s, ev), s)
  {
    UpdateKeepsShape(follow, s, ev);
    var w := EventSlot(ev);
    if w.Some? && w.value.cls in follow {
      var t := Put(s, w.value, EventValue(ev));
      forall cls: Class, code: u16 | cls !in follow
        ensures Get(t, Slot(cls, code)) == Get(s, Slot(cls, code))
      {
        GetPut(s, w.value, EventValue(ev), Slot(cls, code));
      }
    }
  }

  lemma {:induction false} FoldKeepsBackground(follow: set<Class>, s: StateVal, evs: seq<InputEvent>)
    ensures SameBackground(follow, Fold(follow, s, evs), s)
  {
    if evs == [] {
    } else {
      var init := evs[..|evs| - 1];
      FoldKeepsBackground(follow, s, init);
      UpdateKeepsBackground(follow, Fold(follow, s, init), evs[|evs| - 1]);
    }
  }

  /** Two states that read the same in every slot, over the same background, are equal. */
  lemma StateExtensional(follow: set<Class>, s: StateVal, t: StateVal)
    requires SameBackground(follow, s, t)
    requires forall slot: Slot | slot.cls in follow :: Get(s, slot) == Get(t, slot)
    requires Bounded(s)
    ensures s == t
  {
    assert forall slot: Slot :: Get(s, slot) == Get(t, slot) by {
      forall slot: Slot ensures Get(s, slot) == Get(t, slot) {
        if slot.cls !in follow { assert Get(s, Slot(slot.cls, slot.code)) == Get(t, Slot(slot.cls, slot.code)); }
      }
    }
    BitsExtensional(KeyClass, s.keys, t.keys, s, t);
    BitsExtensional(SwitchClass, s.switches, t.switches, s, t);
    BitsExtensional(LedClass, s.leds, t.leds, s, t);
    assert Length(s, AbsClass) == Length(t, AbsClass);
    if s.abs.Some? {
      forall i | 0 <= i < |s.abs.value| ensures s.abs.value[i] == t.abs.value[i] {
        assert Length(s, AbsClass).value <= 0x1_0000;
        assert Get(s, Slot(AbsClass, i)) == Get(t, Slot(AbsClass, i));
        assert s.abs.value[i].(value := 0) == t.abs.value[i].(value := 0);
      }
      assert s.abs.value == t.abs.value;
    }
  }

  lemma BitsExtensional(cls: Class, a: Option<seq<bool>>, b: Option<seq<bool>>, s: StateVal, t: StateVal)
    requires cls != AbsClass && SameShape(s, t)
    requires a == (match cls case KeyClass => s.keys case SwitchClass => s.switches case _ => s.leds)
    requires b == (match cls case KeyClass => t.keys case SwitchClass => t.switches case _ => t.leds)
    requires Length(s, cls).Some? ==> Length(s, cls).value <= 0x1_0000
    requires forall slot: Slot :: Get(s, slot) == Get(t, slot)
    ensures a == b
  {
    assert Length(s, cls) == Length(t, cls);
    if a.Some? {
      forall i | 0 <= i < |a.value| ensures a.value[i] == b.value[i] {
        assert Get(s, Slot(cls, i)) == Get(t, Slot(cls, i));
      }
      assert a.value == b.value;
    }
  }

  /**
   * Replaying any suffix of a sequence that was just folded changes nothing, which is why
   * a partial frame may be scanned again and again.
   */
  lemma ReplayAbsorbed(follow: set<Class>, s: StateVal, a: seq<InputEvent>, b: seq<InputEvent>)
    requires Bounded(s)
    ensures Fold(follow, Fold(follow, s, a + b), b) == Fold(follow, s, a + b)
  {
    var once := Fold(follow, s, a + b);
    var twice := Fold(follow, once, b);
    FoldKeepsShape(follow, s, a + b);
    FoldKeepsBackground(follow, once, b);
    forall slot: Slot | slot.cls in follow ensures Get(twice, slot) == Get(once, slot) {
      assert Length(once, slot.cls) == Length(s, slot.cls);
      if Length(s, slot.cls).Some? && slot.code < Length(s, slot.cls).value {
        GetFold(follow, once, b, slot);
        GetFold(follow, s, a + b, slot);
        LastWriteConcat(a, b, slot);
      } else {
        assert Length(twice, slot.cls) == Length(s, slot.cls);
      }
    }
    assert forall cls: Class :: Length(twice, cls) == Length(once, cls) == Length(s, cls);
    StateExtensional(follow, twice, once);
  }

  /** The cache of a freshly opened device: all zero, whatever the kernel's state is. */
  function NewState(caps: Caps): (s: StateVal)
    ensures Fits(caps, s)
    ensures forall slot :: Get(s, slot) == 0
    ensures s.timestamp == TimeVal(0, 0)
    ensures s.abs.Some? ==> forall i | 0 <= i < |s.abs.value| :: s.abs.value[i] == AbsInfo(0, 0, 0, 0, 0, 0)
  {
    StateVal(
      UNIX_EPOCH,
      if EV_KEY in caps.types then Some(seq(caps.counts.keys, _ => false)) else None,
      if EV_ABS in caps.types then Some(seq(caps.counts.abs, _ => ABSINFO_ZERO)) else None,
      if EV_SW in caps.types then Some(seq(caps.counts.switches, _ => false)) else None,
      if EV_LED in caps.types then Some(seq(caps.counts.leds, _ => false)) else None)
  }

  class DeviceState {
    var timestamp: TimeVal
    var keyVals: Option<seq<bool>>
    var absVals: Option<seq<AbsInfo>>
    var switchVals: Option<seq<bool>>
    var ledVals: Option<seq<bool>>

    function View(): StateVal
      reads this
    {
      StateVal(timestamp, keyVals, absVals, switchVals, ledVals)
    }

    constructor (caps: Caps)
      ensures View() == NewState(caps)
    {
      timestamp := UNIX_EPOCH;
      keyVals := None;
      absVals := None;
      switchVals := None;
      ledVals := None;
      new;
      if EV_KEY in caps.types { keyVals := Some(seq(caps.counts.keys, _ => false)); }
      if EV_ABS in caps.types { absVals := Some(seq(caps.counts.abs, _ => ABSINFO_ZERO)); }
      if EV_SW in caps.types { switchVals := Some(seq(caps.counts.switches, _ => false)); }
      if EV_LED in caps.types { ledVals := Some(seq(caps.counts.leds, _ => false)); }
      assert View().keys == NewState(caps).keys;
      assert View().abs == NewState(caps).abs;
      assert View().switches == NewState(caps).switches;
      assert View().leds == NewState(caps).leds;
    }

    method CloneFrom(other: DeviceState)
      modifies this
      ensures View() == old(other.View())
    {
      timestamp := other.timestamp;
      keyVals := other.keyVals;
      absVals := other.absVals;
      switchVals := other.switchVals;
      ledVals := other.ledVals;
    }

    // The precondition is what the two `expect`s and the two index operations demand.
    method ProcessEvent(ghost caps: Caps, ev: InputEvent)
      requires Fits(caps, View()) && Accepts(caps, ev)
      modifies this
      ensures View() == Update(TRACKED, old(View()), ev)
      ensures Fits(caps, View())
      ensures ev.etype == 0x01 ==> keyVals == Some(old(keyVals).value[ev.code := ev.value != 0])
      ensures ev.etype == 0x03 ==>
        absVals == Some(old(absVals).value[ev.code := old(absVals).value[ev.code].(value := ev.value)])
      ensures ev.etype != 0x01 ==> keyVals == old(keyVals)
      ensures ev.etype != 0x03 ==> absVals == old(absVals)
      ensures timestamp == old(timestamp) && switchVals == old(switchVals) && ledVals == old(ledVals)
    {
      UpdateKeepsShape(TRACKED, View(), ev);
      assert Length(View(), KeyClass).Some? <==> caps.Supported(KeyClass).Some?;
      assert Length(View(), AbsClass).Some? <==> caps.Supported(AbsClass).Some?;
      match Destructure(ev) {
        case Key(code, value) =>
          assert EventSlot(ev) == Some(Slot(KeyClass, code));
          keyVals := Some(keyVals.value[code := value != 0]);
        case AbsoluteAxis(code, value) =>
          assert EventSlot(ev) == Some(Slot(AbsClass, code));
          absVals := Some(absVals.value[code := absVals.value[code].(value := value)]);
        case _ =>
      }
    }
  }
}
