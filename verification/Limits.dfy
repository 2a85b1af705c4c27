/**
 * Where the promise of consistent state transitions fails, with inputs that show it. The
 * exact conditions are RecoversIff and FailedFetchSpoils (Recovery), FetchResyncsIff (Engine)
 * and LeftoverComesFirstIff (AsyncRefinement).
 */
module Limits {
  import opened AsyncRefinement
  import opened Batches
  import opened Compensation
  import opened DeviceState
  import opened Drivers
  import opened Engine
  import opened Events
  import opened Frames
  import opened Sequences
  import opened Wrappers

  lemma ScanWhole(f: seq<InputEvent>)
    requires IsFrame(f)
    ensures ScanFrom(f, 0) == if Damaged(f) then DamagedUpTo(|f|) else CleanUpTo(|f|)
  {
    Whole(f);
    CleanFrame(f);
  }

  /** A whole damaged frame arriving at an empty buffer: folded into the cache, not delivered. */
  lemma OneDamagedFrame(e: Engine, r: Reply, f: seq<InputEvent>)
    requires Safe(e) && r.Plausible(e.caps) && e.buf == [] && !e.dropped
    requires r.read == Success(f) && IsFrame(f) && Damaged(f)
    ensures RunBatch(e, r) == (e.(state := Fold(TRACKED, e.state, f), dropped := true), Some(Batch([], [])))
  {
    hide Fold, Damaged;
    var e1 := e.(buf := f);
    EmptyUnit(f);
    Whole(f);
    assert Fetch(e, r) == (e1, Success(None));
    ScanWhole(f);
    FetchKeepsSafe(e, r);
    assert NextEvent(e1, START).2.None?;
  }

  /** A snapshot that equals the cache is answered by a bare SYN_REPORT. */
  lemma NothingDiffersFrame(caps: Caps, prev: StateVal, cur: StateVal, time: TimeVal)
    requires forall slot: Slot :: !Differs(caps, prev, cur, slot)
    ensures PendingFrame(caps, prev, cur, Some(KeyTypes(time, 0))) == [Report(time)]
  {
    var slots := PendingSlots(caps, prev, cur, KeyTypes(time, 0));
    PendingSlotsExact(caps, prev, cur, KeyTypes(time, 0));
    if slots != [] { FirstIsMember(slots); }
  }

  lemma FirstIsMember(slots: seq<Slot>)
    requires slots != []
    ensures slots[0] in slots
  {
  }

  // A kernel with everything at rest.
  function AtRest(caps: Caps, now: TimeVal, read: Result<seq<InputEvent>, Errno>): Reply {
    Reply(now,
      Success(seq(caps.counts.keys, _ => false)),
      seq(caps.counts.abs, _ => Success(ABSINFO_ZERO)),
      Success(seq(caps.counts.switches, _ => false)),
      Success(seq(caps.counts.leds, _ => false)),
      read)
  }

  // One key down and everything else at rest.
  function KeyDown(caps: Caps, code: u16, now: TimeVal, read: Result<seq<InputEvent>, Errno>): Reply {
    AtRest(caps, now, read).(keys := Success(seq(caps.counts.keys, i => i == code as int)))
  }

  function KeyEvent(code: u16, value: i32): InputEvent {
    InputEvent(UNIX_EPOCH, EV_KEY, code, value)
  }

  function Dropped(): InputEvent {
    InputEvent(UNIX_EPOCH, EV_SYN, SYN_DROPPED, 0)
  }

  lemma KeyDownPlausible(caps: Caps, code: u16, now: TimeVal, read: Result<seq<InputEvent>, Errno>)
    requires read.Success? ==> AllAccepted(caps, read.value)
    ensures KeyDown(caps, code, now, read).Plausible(caps) && KeyDown(caps, code, now, read).IoctlsSucceed(caps)
  {
  }

  // What the cache reads once a key is down in it and nothing else has moved.
  lemma OneKeyDown(caps: Caps, s: StateVal, code: u16)
    requires Fits(caps, s) && caps.Supports(Slot(KeyClass, code)) && s == Put(NewState(caps), Slot(KeyClass, code), 1)
    ensures forall slot: Slot :: Get(s, slot) == if slot == Slot(KeyClass, code) then 1 else 0
  {
    FitsFields(caps, NewState(caps));
    assert caps.Supported(KeyClass) == caps.keys;
    forall slot: Slot ensures Get(s, slot) == if slot == Slot(KeyClass, code) then 1 else 0 {
      assert Length(NewState(caps), KeyClass) == Some(|caps.keys.value|);
      GetPut(NewState(caps), Slot(KeyClass, code), 1, slot);
    }
  }

  /** The resynchronised cache reads exactly what the key-down snapshot says, on every slot. */
  lemma ResyncToKeyDown(caps: Caps, s: StateVal, code: u16, now: TimeVal, read: Result<seq<InputEvent>, Errno>)
    requires Fits(caps, s) && caps.Supports(Slot(KeyClass, code))
    requires s == NewState(caps) || s == Put(NewState(caps), Slot(KeyClass, code), 1)
    requires read.Success? ==> AllAccepted(caps, read.value)
    ensures var (t, err) := Resync(caps, s, KeyDown(caps, code, now, read));
      err.None? && Fits(caps, t) && forall slot: Slot :: Get(t, slot) == if slot == Slot(KeyClass, code) then 1 else 0
  {
    var r := KeyDown(caps, code, now, read);
    KeyDownPlausible(caps, code, now, read);
    ResyncReadsKernel(caps, s, r);
    FitsFields(caps, s);
    assert caps.Supported(KeyClass) == caps.keys;
    if caps.abs.Some? { UpdateAbsReads(caps.abs.value, s.abs.value, r.abs, 0); }
  }

  lemma FoldThree(s: StateVal, a: InputEvent, b: InputEvent, c: InputEvent)
    ensures Fold(TRACKED, s, [a, b, c]) == Update(TRACKED, Update(TRACKED, Update(TRACKED, s, a), b), c)
  {
    assert [a, b, c] == [a] + ([b] + [c]);
    FoldConcat(TRACKED, s, [a], [b] + [c]);
    FoldConcat(TRACKED, Update(TRACKED, s, a), [b], [c]);
    FoldOne(TRACKED, s, a);
    FoldOne(TRACKED, Update(TRACKED, s, a), b);
    FoldOne(TRACKED, Update(TRACKED, Update(TRACKED, s, a), b), c);
  }

  function PressThenDrop(code: u16): seq<InputEvent> {
    [KeyEvent(code, 1), Dropped(), Report(UNIX_EPOCH)]
  }

  lemma PressThenDropIsDamaged(code: u16)
    ensures IsFrame(PressThenDrop(code)) && Damaged(PressThenDrop(code))
    ensures IsFrame([Dropped(), Report(UNIX_EPOCH)]) && Damaged([Dropped(), Report(UNIX_EPOCH)])
  {
    assert IsDropped(PressThenDrop(code)[1]);
    assert IsDropped([Dropped(), Report(UNIX_EPOCH)][0]);
  }

  lemma AcceptsPress(caps: Caps, code: u16)
    requires caps.Supports(Slot(KeyClass, code))
    ensures AllAccepted(caps, PressThenDrop(code)) && AllAccepted(caps, [Dropped(), Report(UNIX_EPOCH)])
  {
    assert EventSlot(KeyEvent(code, 1)) == Some(Slot(KeyClass, code));
  }

  lemma AfterPressThenDrop(caps: Caps, code: u16, now: TimeVal)
    requires caps.Supports(Slot(KeyClass, code))
    ensures var r := KeyDown(caps, code, now, Success(PressThenDrop(code)));
      r.Plausible(caps)
      && RunBatch(Open(caps), r) ==
        (Open(caps).(state := Put(NewState(caps), Slot(KeyClass, code), 1), dropped := true), Some(Batch([], [])))
  {
    AcceptsPress(caps, code);
    KeyDownPlausible(caps, code, now, Success(PressThenDrop(code)));
    PressThenDropIsDamaged(code);
    OneDamagedFrame(Open(caps), KeyDown(caps, code, now, Success(PressThenDrop(code))), PressThenDrop(code));
    FoldThree(NewState(caps), KeyEvent(code, 1), Dropped(), Report(UNIX_EPOCH));
  }

  /**
   * A key pressed inside a damaged frame: the suppressed press reaches the cache, so the diff
   * against the snapshot is empty, and the consumer, told nothing but a SYN_REPORT, never
   * learns of a key the kernel reports as down.
   */
  lemma PressInDamagedFrameIsMissed(caps: Caps, code: u16, now: TimeVal)
    requires caps.Supports(Slot(KeyClass, code))
    ensures var slot := Slot(KeyClass, code);
      var snapshot := KeyDown(caps, code, now, Success([]));
      var replies := [KeyDown(caps, code, now, Success(PressThenDrop(code))), snapshot];
      && AllPlausible(caps, replies)
      && Flatten(RunSync(Open(caps), replies).1) == [Report(now)]
      && snapshot.Value(slot) == 1
      && Get(Fold(ALL, NewState(caps), [Report(now)]), slot) == 0
  {
    hide Fold, RunBatch, KeyDown;
    var slot := Slot(KeyClass, code);
    var first := KeyDown(caps, code, now, Success(PressThenDrop(code)));
    var snapshot := KeyDown(caps, code, now, Success([]));
    var replies := [first, snapshot];
    AfterPressThenDrop(caps, code, now);
    KeyDownPlausible(caps, code, now, Success([]));
    var e1 := RunBatch(Open(caps), first).0;
    BareReport(caps, code, now);
    RunStep(Open(caps), first, [snapshot]);
    RunStep(e1, snapshot, []);
    assert replies == [first] + [snapshot] && [snapshot] == [snapshot] + [];
    FoldOne(ALL, NewState(caps), Report(now));
    KeyDownValue(caps, code, now, Success([]));
  }

  lemma BareReport(caps: Caps, code: u16, now: TimeVal)
    requires caps.Supports(Slot(KeyClass, code))
    ensures var e := Open(caps).(state := Put(NewState(caps), Slot(KeyClass, code), 1), dropped := true);
      var r := KeyDown(caps, code, now, Success([]));
      Safe(e) && r.Plausible(caps) && RunBatch(e, r).1 == Some(Batch([Report(now)], []))
  {
    var e := Open(caps).(state := Put(NewState(caps), Slot(KeyClass, code), 1), dropped := true);
    var r := KeyDown(caps, code, now, Success([]));
    AfterPressThenDrop(caps, code, now);
    KeyDownPlausible(caps, code, now, Success([]));
    ResyncToKeyDown(caps, e.state, code, now, Success([]));
    OneKeyDown(caps, e.state, code);
    NothingDiffersFrame(caps, e.state, Resync(caps, e.state, r).0, now);
    BatchExact(e, r);
    NoReportOutputsNothing([]);
  }

  lemma KeyDownValue(caps: Caps, code: u16, now: TimeVal, read: Result<seq<InputEvent>, Errno>)
    requires caps.Supports(Slot(KeyClass, code))
    ensures KeyDown(caps, code, now, read).Value(Slot(KeyClass, code)) == 1
  {
    assert caps.Supported(KeyClass) == caps.keys && |caps.keys.value| == caps.counts.Of(KeyClass) as int;
  }

  // Peeling one fetch off a run.
  lemma RunStep(e: Engine, r: Reply, rest: seq<Reply>)
    requires Safe(e) && r.Plausible(e.caps) && AllPlausible(e.caps, rest)
    ensures var (e1, b) := RunBatch(e, r);
      AllPlausible(e.caps, [r] + rest)
      && Flatten(RunSync(e, [r] + rest).1) ==
        (if b.Some? then b.value.synthetic + b.value.kernel else []) + Flatten(RunSync(e1, rest).1)
  {
    assert ([r] + rest)[1..] == rest;
    var (e1, b) := RunBatch(e, r);
    if b.Some? { ConsBatch(b.value, RunSync(e1, rest).1); }
  }

  /**
   * A read that would block right after the snapshot: the flag was taken, the snapshot was
   * stored, and no later fetch emits the difference. The consumer hears nothing at all of a
   * key the kernel reports as down.
   */
  lemma FailedReadLosesResync(caps: Caps, code: u16, now: TimeVal)
    requires caps.Supports(Slot(KeyClass, code))
    ensures var replies := [
        KeyDown(caps, code, now, Success([Dropped(), Report(UNIX_EPOCH)])),
        KeyDown(caps, code, now, Failure(EAGAIN)),
        KeyDown(caps, code, now, Success([]))];
      && AllPlausible(caps, replies)
      && Flatten(RunSync(Open(caps), replies).1) == []
      && replies[2].Value(Slot(KeyClass, code)) == 1
  {
    var damaged := [Dropped(), Report(UNIX_EPOCH)];
    var r1 := KeyDown(caps, code, now, Success(damaged));
    var r2 := KeyDown(caps, code, now, Failure(EAGAIN));
    var r3 := KeyDown(caps, code, now, Success([]));
    DamageAtOpen(caps, code, now);
    KeyDownPlausible(caps, code, now, Failure(EAGAIN));
    KeyDownPlausible(caps, code, now, Success([]));
    NothingAfterFailedRead(RunBatch(Open(caps), r1).0, r2, r3);
    RunStep(Open(caps), r1, [r2, r3]);
    assert [r1, r2, r3] == [r1] + [r2, r3];
    KeyDownValue(caps, code, now, Success([]));
  }

  lemma DamageAtOpen(caps: Caps, code: u16, now: TimeVal)
    requires caps.Supports(Slot(KeyClass, code))
    ensures var r := KeyDown(caps, code, now, Success([Dropped(), Report(UNIX_EPOCH)]));
      && r.Plausible(caps) && RunBatch(Open(caps), r).1 == Some(Batch([], []))
      && Safe(RunBatch(Open(caps), r).0) && RunBatch(Open(caps), r).0.buf == []
  {
    var damaged := [Dropped(), Report(UNIX_EPOCH)];
    AcceptsPress(caps, code);
    PressThenDropIsDamaged(code);
    KeyDownPlausible(caps, code, now, Success(damaged));
    OneDamagedFrame(Open(caps), KeyDown(caps, code, now, Success(damaged)), damaged);
  }

  lemma NothingAfterFailedRead(e: Engine, r2: Reply, r3: Reply)
    requires Safe(e) && e.buf == [] && r2.Plausible(e.caps) && r3.Plausible(e.caps)
    requires r2.read.Failure? && r3.read == Success([])
    ensures AllPlausible(e.caps, [r2, r3]) && Flatten(RunSync(e, [r2, r3]).1) == []
  {
    FetchResyncsIff(e, r2);
    FailedBatch(e, r2);
    var e2 := RunBatch(e, r2).0;
    EmptyBatch(e2, r3);
    RunStep(e, r2, [r3]);
    RunStep(e2, r3, []);
    assert [r2, r3] == [r2] + [r3] && [r3] == [r3] + [];
  }

  lemma EmptyBatch(e: Engine, r: Reply)
    requires Safe(e) && e.buf == [] && !e.dropped && r.Plausible(e.caps) && r.read == Success([])
    ensures RunBatch(e, r).1 == Some(Batch([], []))
  {
    BatchExact(e, r);
    NoReportOutputsNothing([]);
  }

  /** A whole clean frame being delivered with nothing after it in the buffer. */
  lemma {:induction false} DriveRange(e: Engine, c: Cursor)
    requires Live(e, c) && c.sync.None? && c.hi == c.consumed == |e.buf|
    ensures Drive(e, c) == (e, c.(lo := c.hi), e.buf[c.lo..])
    decreases |e.buf| - c.lo
  {
    if c.lo == c.hi {
      assert Slice(e.buf, c.hi, |e.buf|) == [];
    } else {
      NextProgresses(e, c);
      DriveRange(e, c.(lo := c.lo + 1));
      assert [e.buf[c.lo]] + e.buf[c.lo + 1..] == e.buf[c.lo..];
    }
  }

  /** A whole clean frame arriving at an empty buffer: folded into the cache and delivered. */
  lemma OneCleanFrame(e: Engine, r: Reply, f: seq<InputEvent>)
    requires Safe(e) && r.Plausible(e.caps) && e.buf == [] && !e.dropped
    requires r.read == Success(f) && IsFrame(f) && !Damaged(f)
    ensures RunBatch(e, r) == (e.(state := Fold(TRACKED, e.state, f)), Some(Batch([], f)))
  {
    hide Fold, Damaged;
    var e1 := e.(buf := f);
    EmptyUnit(f);
    Whole(f);
    assert Fetch(e, r) == (e1, Success(None));
    ScanWhole(f);
    FetchKeepsSafe(e, r);
    NextKeepsOk(e1, START);
    DriveRange(NextEvent(e1, START).0, NextEvent(e1, START).1);
  }

  function SwitchOn(code: u16): seq<InputEvent> {
    [InputEvent(UNIX_EPOCH, EV_SW, code, 1), Report(UNIX_EPOCH)]
  }

  lemma DeliversSwitchOn(caps: Caps, code: u16, now: TimeVal)
    requires caps.Supports(Slot(SwitchClass, code))
    ensures var r := AtRest(caps, now, Success(SwitchOn(code)));
      r.Plausible(caps) && RunBatch(Open(caps), r) == (Open(caps), Some(Batch([], SwitchOn(code))))
  {
    var f := SwitchOn(code);
    assert EventSlot(f[0]) == Some(Slot(SwitchClass, code));
    OneCleanFrame(Open(caps), AtRest(caps, now, Success(f)), f);
    FoldTwo(TRACKED, NewState(caps), f[0], f[1]);
  }

  lemma FoldTwo(follow: set<Class>, s: StateVal, a: InputEvent, b: InputEvent)
    ensures Fold(follow, s, [a, b]) == Update(follow, Update(follow, s, a), b)
  {
    assert [a, b][..1] == [a];
    FoldOne(follow, s, a);
  }

  lemma DamageKeepsCache(caps: Caps, now: TimeVal)
    ensures var r := AtRest(caps, now, Success([Dropped(), Report(UNIX_EPOCH)]));
      r.Plausible(caps) && RunBatch(Open(caps), r) == (Open(caps).(dropped := true), Some(Batch([], [])))
  {
    var f := [Dropped(), Report(UNIX_EPOCH)];
    assert IsDropped(f[0]);
    OneDamagedFrame(Open(caps), AtRest(caps, now, Success(f)), f);
    FoldTwo(TRACKED, NewState(caps), f[0], f[1]);
  }

  lemma AtRestReads(caps: Caps, now: TimeVal)
    ensures var r := AtRest(caps, now, Success([]));
      r.Plausible(caps) && r.IoctlsSucceed(caps) && r.now == now && r.read == Success([])
      && forall slot: Slot :: r.Value(slot) == 0
  {
  }

  /** Resynchronising a cache that was never written with a kernel at rest. */
  lemma RestingSnapshot(caps: Caps, now: TimeVal)
    ensures var r := AtRest(caps, now, Success([]));
      r.Plausible(caps) && RunBatch(Open(caps).(dropped := true), r).1 == Some(Batch([Report(now)], []))
      && forall slot: Slot :: r.Value(slot) == 0
  {
    hide AtRest, Resync;
    var e, r := Open(caps).(dropped := true), AtRest(caps, now, Success([]));
    AtRestReads(caps, now);
    ResyncReadsKernel(caps, e.state, r);
    var s := Resync(caps, e.state, r).0;
    forall slot: Slot ensures !Differs(caps, e.state, s, slot) {}
    NothingDiffersFrame(caps, e.state, s, now);
    BatchExact(e, r);
    NoReportOutputsNothing([]);
  }

  /**
   * Switches and LEDs are not followed between resynchronisations. A switch turned on in a
   * delivered frame and off in lost ones: the cache never read on, so the snapshot differs from
   * it in nothing, and the consumer keeps on a switch the kernel reports as off.
   */
  lemma SwitchTurnedOffIsMissed(caps: Caps, code: u16, now: TimeVal)
    requires caps.Supports(Slot(SwitchClass, code))
    ensures var slot := Slot(SwitchClass, code);
      var snapshot := AtRest(caps, now, Success([]));
      var replies := [
        AtRest(caps, now, Success(SwitchOn(code))),
        AtRest(caps, now, Success([Dropped(), Report(UNIX_EPOCH)])),
        snapshot];
      && AllPlausible(caps, replies)
      && Flatten(RunSync(Open(caps), replies).1) == SwitchOn(code) + [Report(now)]
      && snapshot.Value(slot) == 0
      && Get(Fold(ALL, NewState(caps), SwitchOn(code) + [Report(now)]), slot) == 1
  {
    hide AtRest, RunBatch, RunSync, Fold, Get, SwitchOn;
    var r1 := AtRest(caps, now, Success(SwitchOn(code)));
    var r2 := AtRest(caps, now, Success([Dropped(), Report(UNIX_EPOCH)]));
    var r3 := AtRest(caps, now, Success([]));
    DeliversSwitchOn(caps, code, now);
    DamageKeepsCache(caps, now);
    RestingSnapshot(caps, now);
    RunThree(Open(caps), r1, r2, r3);
    ConsumerKeepsOn(caps, code, now);
  }

  lemma RunThree(e: Engine, r1: Reply, r2: Reply, r3: Reply)
    requires Safe(e) && AllPlausible(e.caps, [r1, r2, r3])
    requires r1.Plausible(e.caps) && r2.Plausible(e.caps) && r3.Plausible(e.caps)
    ensures var (e1, b1) := RunBatch(e, r1); var (e2, b2) := RunBatch(e1, r2); var (e3, b3) := RunBatch(e2, r3);
      b1.Some? && b2.Some? && b3.Some? ==>
        Flatten(RunSync(e, [r1, r2, r3]).1) ==
          (b1.value.synthetic + b1.value.kernel) + ((b2.value.synthetic + b2.value.kernel)
            + ((b3.value.synthetic + b3.value.kernel) + []))
  {
    var e1 := RunBatch(e, r1).0;
    var e2 := RunBatch(e1, r2).0;
    assert [r1, r2, r3] == [r1] + [r2, r3] && [r2, r3] == [r2] + [r3] && [r3] == [r3] + [];
    RunStep(e2, r3, []);
    RunStep(e1, r2, [r3]);
    RunStep(e, r1, [r2, r3]);
  }

  lemma ConsumerKeepsOn(caps: Caps, code: u16, now: TimeVal)
    requires caps.Supports(Slot(SwitchClass, code))
    ensures Get(Fold(ALL, NewState(caps), SwitchOn(code) + [Report(now)]), Slot(SwitchClass, code)) == 1
  {
    var f := SwitchOn(code);
    assert EventSlot(f[0]) == Some(Slot(SwitchClass, code));
    FoldConcat(ALL, NewState(caps), f, [Report(now)]);
    FoldTwo(ALL, NewState(caps), f[0], f[1]);
    FoldOne(ALL, Update(ALL, NewState(caps), f[0]), Report(now));
    assert Length(NewState(caps), SwitchClass) == Some(|caps.Supported(SwitchClass).value|);
    GetUpdate(ALL, NewState(caps), f[0], Slot(SwitchClass, code));
  }

  /**
   * Mixing the drivers: an iterator stops at a damaged frame with a key press behind it, and a
   * stream made from that device delivers the press before the synthetic frame, whatever the
   * reactor does.
   */
  lemma StreamSkipsSynthetic(caps: Caps, code: u16, now: TimeVal, wakes: seq<Wake>)
    requires caps.Supports(Slot(KeyClass, code)) && WakesPlausible(caps, wakes)
    ensures var press := [KeyEvent(code, 1), Report(UNIX_EPOCH)];
      var r := AtRest(caps, now, Success([Dropped(), Report(UNIX_EPOCH)] + press));
      && r.Plausible(caps)
      && var e := RunBatch(Open(caps), r).0;
      && e.dropped && e.buf == press && StreamOk(Stream(e, START))
      && PollEvent(Stream(e, START), wakes).2 == Item(press[0])
  {
    var damaged, press := [Dropped(), Report(UNIX_EPOCH)], [KeyEvent(code, 1), Report(UNIX_EPOCH)];
    var r := AtRest(caps, now, Success(damaged + press));
    AcceptsPress(caps, code);
    assert AllAccepted(caps, press) by { assert press[0] == PressThenDrop(code)[0]; }
    AcceptedConcat(caps, damaged, press);
    PressThenDropIsDamaged(code);
    PeelFrame(damaged, press);
    assert [] + (damaged + press) == damaged + press;
    BatchExact(Open(caps), r);
    LeftoverComesFirstIff(RunBatch(Open(caps), r).0, wakes);
    PressHeads(press);
  }

  lemma PressHeads(press: seq<InputEvent>)
    requires |press| == 2 && !IsReport(press[0]) && IsReport(press[1]) && !IsDropped(press[0])
    ensures ScanFrom(press, 0) == CleanUpTo(2)
  {
    Whole(press);
    FirstReportUnique(press, 1);
  }
}
