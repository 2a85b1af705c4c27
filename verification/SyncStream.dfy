/**
 * The devices and the two drivers of the resynchronisation engine: the `FetchEventsSynced`
 * iterator and the asynchronous `EventStream`. Each method is proved against the functions
 * of Engine and Drivers.
 */
module SyncStream {
  import opened AttributeSet
  import opened Compensation
  import opened DeviceState
  import opened Drivers
  import opened Engine
  import opened Events
  import opened Frames
  import opened RawStream
  import opened Wrappers

  class Device {
    const raw: RawDevice
    const prevState: DeviceState
    const state: DeviceState
    var blockDropped: bool

    predicate Valid()
      reads this, raw, prevState, state
    {
      prevState != state && Safe(View())
    }

    function View(): Engine
      reads this, raw, prevState, state
    {
      Engine(raw.caps, raw.eventBuf, prevState.View(), state.View(), blockDropped)
    }

    constructor FromRawDevice(raw: RawDevice)
      requires raw.eventBuf == []
      ensures Valid() && this.raw == raw && fresh(prevState) && fresh(state)
      ensures View() == Open(raw.caps)
    {
      this.raw := raw;
      blockDropped := false;
      state := new DeviceState(raw.caps);
      prevState := new DeviceState(raw.caps);
    }

    method SyncState(r: Reply) returns (err: Option<Errno>)
      requires Valid() && r.Plausible(raw.caps)
      modifies state
      ensures (state.View(), err) == Resync(raw.caps, old(state.View()), r)
    {
      FitsFields(raw.caps, state.View());
      err := None;
      if state.keyVals.Some? {
        match r.keys {
          case Failure(e) => return Some(e);
          case Success(bits) => state.keyVals := Some(bits);
        }
      }
      if state.absVals.Some? {
        var vals;
        vals, err := raw.UpdateAbsState(state.absVals.value, r.abs);
        state.absVals := Some(vals);
        if err.Some? { return; }
      }
      if state.switchVals.Some? {
        match r.switches {
          case Failure(e) => return Some(e);
          case Success(bits) => state.switchVals := Some(bits);
        }
      }
      if state.ledVals.Some? {
        match r.leds {
          case Failure(e) => return Some(e);
          case Success(bits) => state.ledVals := Some(bits);
        }
      }
      state.timestamp := r.now;
    }

    method FetchEventsInner(r: Reply) returns (res: Result<Option<SyncState>, Errno>)
      requires Valid() && r.Plausible(raw.caps)
      modifies this, raw, prevState, state
      ensures Valid()
      ensures (View(), res) == Fetch(old(View()), r)
    {
      FetchKeepsSafe(View(), r);
      var wasDropped := blockDropped;
      blockDropped := false;
      var sync := None;
      if wasDropped {
        prevState.CloneFrom(state);
        var err := SyncState(r);
        if err.Some? { return Failure(err.value); }
        sync := Some(KeyTypes(r.now, 0));
      }
      var filled := raw.FillEvents(r.read);
      if filled.Failure? { return Failure(filled.error); }
      return Success(sync);
    }

    /** `Device::fetch_events`. */
    method FetchEvents(r: Reply) returns (res: Result<FetchEventsSynced, Errno>)
      requires Valid() && r.Plausible(raw.caps)
      modifies this, raw, prevState, state
      ensures Valid()
      ensures res.Failure? ==> Fetch(old(View()), r) == (View(), Failure(res.error))
      ensures res.Success? ==>
        && fresh(res.value) && res.value.dev == this && res.value.Valid()
        && Fetch(old(View()), r) == (View(), Success(res.value.sync))
        && res.value.Position() == START.(sync := res.value.sync)
    {
      FetchKeepsSafe(View(), r);
      var sync := FetchEventsInner(r);
      match sync
      case Failure(e) => res := Failure(e);
      case Success(s) =>
        var it := new FetchEventsSynced(this, s);
        res := Success(it);
    }
  }

  /**
   * One arm of `compensate_events` (the `try_compensate!` macro): the first supported code
   * from the cursor on whose two cached values differ.
   */
  method TryCompensate(caps: Caps, prev: StateVal, cur: StateVal, cls: Class, start: u16) returns (code: Option<u16>)
    requires Fits(caps, prev) && Fits(caps, cur) && start <= caps.Count(cls)
    ensures var n := NextDiff(caps, prev, cur, cls, start);
      code == if n < caps.Count(cls) then Some(n) else None
  {
    code := None;
    var supported := caps.Supported(cls);
    if supported.None? { return; }
    assert |supported.value| == caps.counts.Of(cls) as int;
    // the `unwrap`s and the array index of the macro
    assert Length(prev, cls) == Some(|supported.value|) && Length(cur, cls) == Some(|supported.value|);
    var it := new AttributeSetRefIter(supported.value, start);
    ghost var n := NextDiff(caps, prev, cur, cls, start);
    var typ := it.Next();
    while typ.Some?
      invariant it.Valid() && it.offset == start && it.bits == supported.value[start..] && it.back == |it.bits|
      invariant typ.Some? ==>
        && start <= typ.value < |supported.value| && it.front == typ.value - start + 1
        && caps.Supports(Slot(cls, typ.value))
      invariant n >= if typ.Some? then typ.value else caps.Count(cls)
      decreases |it.bits| - it.front, if typ.Some? then 1 else 0
    {
      ghost var from := it.front;
      var slot := Slot(cls, typ.value);
      if Get(prev, slot) != Get(cur, slot) {
        return Some(typ.value);
      }
      typ := it.Next();
      NoDiffBetween(caps, prev, cur, cls, start, start + from,
        if typ.Some? then typ.value else caps.Count(cls), it.bits);
    }
  }

  lemma NoDiffBetween(caps: Caps, prev: StateVal, cur: StateVal, cls: Class, start: u16, lo: nat, hi: nat,
      slice: seq<bool>)
    requires start <= lo <= caps.Count(cls) && hi <= caps.Count(cls)
    requires caps.Supported(cls).Some? && slice == caps.Supported(cls).value[start..]
    requires forall k | lo - start <= k < hi - start :: !slice[k]
    requires NextDiff(caps, prev, cur, cls, start) >= lo
    ensures NextDiff(caps, prev, cur, cls, start) >= hi
  {
    forall c: u16 | lo <= c < hi ensures !Differs(caps, prev, cur, Slot(cls, c)) {
      assert slice[c - start] == caps.Supported(cls).value[c];
    }
  }

  /** `compensate_events`: phase after phase until something differs or the frame closes. */
  method CompensateEvents(sync: Option<SyncState>, caps: Caps, prev: StateVal, cur: StateVal)
    returns (rest: Option<SyncState>, ev: Option<InputEvent>)
    requires Fits(caps, prev) && Fits(caps, cur) && (sync.Some? ==> sync.value.InRange(caps))
    ensures sync.None? ==> rest.None? && ev.None?
    ensures sync.Some? ==> ev.Some? && (ev.value, rest) == Compensate(caps, prev, cur, sync.value)
  {
    if sync.None? { return None, None; }
    ghost var goal := Compensate(caps, prev, cur, sync.value);
    var s := sync.value;
    while true
      invariant s.InRange(caps)
      invariant Compensate(caps, prev, cur, s) == goal
      decreases 3 - Rank(s.Class())
    {
      var code := TryCompensate(caps, prev, cur, s.Class(), s.start);
      if code.Some? {
        var slot := Slot(s.Class(), code.value);
        return Some(s.(start := code.value + 1)), Some(SlotEvent(s.time, slot, Get(cur, slot)));
      }
      if s.Leds? { return None, Some(Report(s.time)); }
      s := s.NextPhase();
    }
  }

  datatype ScanResult = Event(ev: InputEvent) | NeedsSync(requiresSync: bool)

  /**
   * The inner loop of `sync_events`: walk the buffer from `blockStart` to the next SYN_REPORT,
   * folding into the cache and noting any SYN_DROPPED on the way.
   */
  method WalkBlock(blockStart: nat, buf: seq<InputEvent>, state: DeviceState, ghost caps: Caps)
    returns (end: Option<nat>, blockDropped: bool)
    requires Fits(caps, state.View()) && AllAccepted(caps, buf)
    modifies state
    ensures match ScanFrom(buf, blockStart)
      case Unfinished => end.None? && state.View() == Fold(TRACKED, old(state.View()), Slice(buf, blockStart, |buf|))
      case DamagedUpTo(n) =>
        && end == Some(n) && blockDropped
        && state.View() == Fold(TRACKED, old(state.View()), buf[blockStart..n])
      case CleanUpTo(n) =>
        && end == Some(n) && !blockDropped
        && state.View() == Fold(TRACKED, old(state.View()), buf[blockStart..n])
  {
    hide Fold, Slice, ScanFrom, Update, Damaged;
    ghost var s0 := state.View();
    blockDropped := false;
    var i := blockStart;
    ScannedNothing(buf, blockStart, s0);
    while i < |buf|
      invariant blockStart <= i && (blockStart <= |buf| ==> i <= |buf|)
      invariant Scanned(Slice(buf, blockStart, i), s0, state.View(), blockDropped)
    {
      var ev := buf[i];
      ScannedStep(Slice(buf, blockStart, i), s0, state.View(), blockDropped, ev);
      SliceSnoc(buf, blockStart, i);
      if IsDropped(ev) {
        blockDropped := true;
      } else if IsReport(ev) {
        ScanFinds(buf, blockStart, i);
        return Some(i + 1), blockDropped;
      } else {
        FoldFits(caps, s0, Slice(buf, blockStart, i));
        state.ProcessEvent(caps, ev);
      }
      i := i + 1;
    }
    ScanFindsNothing(buf, blockStart, i);
    end := None;
  }

  lemma SliceSnoc(buf: seq<InputEvent>, from: nat, i: nat)
    requires from <= i < |buf|
    ensures Slice(buf, from, i) + [buf[i]] == Slice(buf, from, i + 1) == buf[from..i + 1]
  {
  }

  /**
   * `sync_events`, with `process_event` on the cached state as its callback. The outer loop
   * comes round at most once: a new range is never empty.
   */
  method ScanEvents(range: (nat, nat), buf: seq<InputEvent>, state: DeviceState, ghost caps: Caps)
    returns (range': (nat, nat), res: ScanResult, consumedTo: Option<nat>)
    requires range.0 < range.1 ==> range.1 <= |buf|
    requires Fits(caps, state.View()) && AllAccepted(caps, buf)
    modifies state
    ensures ScanYields(buf, range, old(state.View()), range', state.View(), res, consumedTo)
  {
    range' := range;
    consumedTo := None;
    ghost var s0 := state.View();
    ghost var restarted := false;
    while true
      invariant restarted ==> range'.0 < range'.1 && range'.0 == range.1 && consumedTo == Some(range'.1)
      invariant restarted ==> !(range.0 < range.1) && ScanFrom(buf, range.1) == CleanUpTo(range'.1)
      invariant restarted ==> state.View() == Fold(TRACKED, s0, buf[range.1..range'.1])
      invariant !restarted ==> range' == range && consumedTo.None? && state.View() == s0
      decreases if restarted then 0 else 1
    {
      if range'.0 < range'.1 {
        res := Event(buf[range'.0]);
        range' := (range'.0 + 1, range'.1);
        return;
      }
      var blockStart := range'.1;
      var end, blockDropped := WalkBlock(blockStart, buf, state, caps);
      if end.None? {
        res := NeedsSync(false);
        return;
      }
      consumedTo := end;
      if blockDropped {
        range' := (|buf|, |buf|);
        res := NeedsSync(true);
        return;
      }
      range' := (blockStart, end.value);
      restarted := true;
    }
  }

  // One call of `sync_events`: emit from the range, or open the next frame, or stop.
  ghost predicate ScanYields(buf: seq<InputEvent>, range: (nat, nat), s: StateVal,
    range': (nat, nat), s': StateVal, res: ScanResult, consumedTo: Option<nat>)
    requires range.0 < range.1 ==> range.1 <= |buf|
  {
    if range.0 < range.1 then
      res == Event(buf[range.0]) && range' == (range.0 + 1, range.1) && s' == s && consumedTo.None?
    else match ScanFrom(buf, range.1)
      case Unfinished =>
        && res == NeedsSync(false) && range' == range && consumedTo.None?
        && s' == Fold(TRACKED, s, Slice(buf, range.1, |buf|))
      case DamagedUpTo(end) =>
        && res == NeedsSync(true) && range' == (|buf|, |buf|) && consumedTo == Some(end)
        && s' == Fold(TRACKED, s, buf[range.1..end])
      case CleanUpTo(end) =>
        && res == Event(buf[range.1]) && range' == (range.1 + 1, end) && consumedTo == Some(end)
        && s' == Fold(TRACKED, s, buf[range.1..end])
  }

  // What the inner loop has established over the events of the frame it has seen so far.
  ghost predicate Scanned(seen: seq<InputEvent>, s0: StateVal, s: StateVal, blockDropped: bool) {
    NoReport(seen) && (blockDropped <==> Damaged(seen)) && s == Fold(TRACKED, s0, seen)
  }

  lemma ScannedStep(seen: seq<InputEvent>, s0: StateVal, s: StateVal, blockDropped: bool, ev: InputEvent)
    requires Scanned(seen, s0, s, blockDropped)
    ensures IsDropped(ev) ==> Scanned(seen + [ev], s0, s, true)
    ensures IsReport(ev) ==> Fold(TRACKED, s0, seen + [ev]) == s && (Damaged(seen + [ev]) <==> blockDropped)
    ensures !IsDropped(ev) && !IsReport(ev) ==> Scanned(seen + [ev], s0, Update(TRACKED, s, ev), blockDropped)
  {
    FoldSnoc(TRACKED, s0, seen, ev);
    DamagedConcat(seen, [ev]);
    assert Damaged([ev]) <==> IsDropped(ev) by { assert [ev][0] == ev; }
  }

  lemma FoldSnoc(follow: set<Class>, s: StateVal, evs: seq<InputEvent>, ev: InputEvent)
    ensures Fold(follow, s, evs + [ev]) == Update(follow, Fold(follow, s, evs), ev)
  {
    assert (evs + [ev])[..|evs|] == evs;
  }

  lemma ScanFinds(buf: seq<InputEvent>, from: nat, i: nat)
    requires from <= i < |buf| && NoReport(Slice(buf, from, i)) && IsReport(buf[i])
    ensures ScanFrom(buf, from) == if Damaged(buf[from..i + 1]) then DamagedUpTo(i + 1) else CleanUpTo(i + 1)
  {
    assert buf[from..][..i - from] == buf[from..i];
    FirstReportUnique(buf[from..], i - from);
  }

  lemma ScannedNothing(buf: seq<InputEvent>, from: nat, s: StateVal)
    ensures Scanned(Slice(buf, from, from), s, s, false)
  {
  }

  lemma ScanFindsNothing(buf: seq<InputEvent>, from: nat, i: nat)
    requires |buf| <= i && (from <= |buf| ==> i == |buf|) && NoReport(Slice(buf, from, i))
    ensures ScanFrom(buf, from) == Unfinished && Slice(buf, from, i) == Slice(buf, from, |buf|)
  {
    if from <= |buf| { NoReportOutputsNothing(buf[from..]); }
  }

  /** The iterator `fetch_events` returns. */
  class FetchEventsSynced {
    const dev: Device
    var range: (nat, nat)
    var consumedTo: nat
    var sync: Option<SyncState>

    function Position(): Cursor
      reads this
    {
      Cursor(range.0, range.1, consumedTo, sync)
    }

    predicate Valid()
      reads this, dev, dev.raw, dev.prevState, dev.state
    {
      dev.Valid() && CursorOk(dev.View(), Position())
    }

    constructor (dev: Device, sync: Option<SyncState>)
      requires dev.Valid() && CursorOk(dev.View(), START.(sync := sync))
      ensures this.dev == dev && this.sync == sync && Valid() && Position() == START.(sync := sync)
    {
      this.dev := dev;
      range := (0, 0);
      consumedTo := 0;
      this.sync := sync;
    }

    method Next() returns (ev: Option<InputEvent>)
      requires Valid()
      modifies this, dev, dev.prevState, dev.state
      ensures Valid()
      ensures (dev.View(), Position(), ev) == NextEvent(old(dev.View()), old(Position()))
    {
      NextKeepsOk(dev.View(), Position());
      var rest, out := CompensateEvents(sync, dev.raw.caps, dev.prevState.View(), dev.state.View());
      sync := rest;
      if out.Some? {
        CompensatedIsAccepted(dev.raw.caps, dev.prevState.View(), dev.state.View(), old(sync).value);
        dev.prevState.ProcessEvent(dev.raw.caps, out.value);
        return out;
      }
      var r, res, to := ScanEvents(range, dev.raw.eventBuf, dev.state, dev.raw.caps);
      range := r;
      if to.Some? { consumedTo := to.value; }
      match res {
        case Event(e) => ev := Some(e);
        case NeedsSync(requiresSync) =>
          if requiresSync { dev.blockDropped := true; }
          ev := None;
      }
    }

    method Drop()
      requires Valid()
      modifies dev.raw
      ensures dev.Valid()
      ensures dev.View() == DropIterator(old(dev.View()), Position())
    {
      dev.raw.eventBuf := dev.raw.eventBuf[consumedTo..];
    }
  }

  /** The asynchronous stream, which owns its device. */
  class EventStream {
    const dev: Device
    var eventRange: (nat, nat)
    var consumedTo: nat
    var sync: Option<SyncState>

    function Snapshot(): Stream
      reads this, dev, dev.raw, dev.prevState, dev.state
    {
      Stream(dev.View(), Cursor(eventRange.0, eventRange.1, consumedTo, sync))
    }

    predicate Valid()
      reads this, dev, dev.raw, dev.prevState, dev.state
    {
      dev.Valid() && StreamOk(Snapshot())
    }

    constructor (dev: Device)
      requires dev.Valid()
      ensures this.dev == dev && Valid() && Snapshot() == Stream(dev.View(), START)
    {
      this.dev := dev;
      eventRange := (0, 0);
      consumedTo := 0;
      sync := None;
    }

    /** `poll_event`: the reactor's and the kernel's answers come from `wakes`, in order. */
    method PollEvent(wakes: seq<Wake>) returns (rest: seq<Wake>, p: Poll)
      requires Valid() && WakesPlausible(dev.raw.caps, wakes)
      modifies this, dev, dev.raw, dev.prevState, dev.state
      ensures Valid()
      ensures (Snapshot(), rest, p) == Drivers.PollEvent(old(Snapshot()), wakes)
    {
      rest := wakes;
      ghost var goal := Drivers.PollEvent(Snapshot(), wakes);
      while true
        invariant Valid() && WakesPlausible(dev.raw.caps, rest)
        invariant Drivers.PollEvent(Snapshot(), rest) == goal
        decreases |rest|
      {
        var compensated := Compensated();
        if compensated.Some? { return rest, Item(compensated.value); }
        var scanned := ScanOnce();
        if scanned.Some? { return rest, Item(scanned.value); }
        var wakesBefore := |rest|;
        var done := false;
        while !done
          invariant dev.Valid() && WakesPlausible(dev.raw.caps, rest) && |rest| <= wakesBefore
          invariant !done ==> Waiting(Snapshot()) && AwaitFetch(Snapshot(), rest) == goal
          invariant done ==> |rest| < wakesBefore && Valid() && Drivers.PollEvent(Snapshot(), rest) == goal
          decreases |rest|, if done then 0 else 1
        {
          if rest == [] { return [], Pending; }
          var wake := rest[0];
          rest := rest[1..];
          match wake {
            case NotReady => return rest, Pending;
            case ReadyFailed(err) => return rest, Failed(err);
            case Ready(reply) =>
              FetchKeepsSafe(dev.View(), reply);
              ghost var before := Snapshot();
              var res := dev.FetchEventsInner(reply);
              match res {
                case Success(s) =>
                  sync := s;
                  eventRange := (0, 0);
                  done := true;
                case Failure(err) =>
                  FailedFetchWaits(before, reply);
                  if err != EAGAIN { return rest, Failed(err); }
              }
          }
        }
      }
    }

    // The first statement of the outer loop.
    method Compensated() returns (ev: Option<InputEvent>)
      requires Valid()
      modifies this`sync
      ensures dev.Valid() && eventRange == old(eventRange) && consumedTo == old(consumedTo)
      ensures ev.Some? <==> old(sync).Some?
      ensures ev.Some? ==>
        && (ev.value, sync) == Compensate(dev.raw.caps, dev.prevState.View(), dev.state.View(), old(sync).value)
        && Valid()
      ensures ev.None? ==> sync == old(sync)
    {
      var rest, out := CompensateEvents(sync, dev.raw.caps, dev.prevState.View(), dev.state.View());
      sync := rest;
      ev := out;
    }

    // `sync_events`, and the drain when it has nothing to emit.
    method ScanOnce() returns (ev: Option<InputEvent>)
      requires Valid() && sync.None?
      modifies this`eventRange, this`consumedTo, dev, dev.raw, dev.state
      ensures dev.Valid()
      ensures var (e', c', out) := SyncEvents(old(dev.View()), old(Snapshot().c));
        && ev == out
        && (out.Some? ==> Snapshot() == Stream(e', c') && StreamOk(Snapshot()))
        && (out.None? ==> c'.consumed <= |e'.buf| && Snapshot() == Drained(e', c') && Waiting(Snapshot()))
    {
      StreamScans(Snapshot());
      var r, res, to := ScanEvents(eventRange, dev.raw.eventBuf, dev.state, dev.raw.caps);
      eventRange := r;
      if to.Some? { consumedTo := to.value; }
      match res {
        case Event(e) => ev := Some(e);
        case NeedsSync(requiresSync) =>
          if requiresSync { dev.blockDropped := true; }
          dev.raw.eventBuf := dev.raw.eventBuf[consumedTo..];
          consumedTo := 0;
          ev := None;
      }
    }
  }

  /** A synthetic event never trips `prev_state.process_event`. */
  lemma CompensatedIsAccepted(caps: Caps, prev: StateVal, cur: StateVal, sync: SyncState)
    requires sync.InRange(caps)
    ensures Accepts(caps, Compensate(caps, prev, cur, sync).0)
  {
    CompensateSlots(caps, prev, cur, sync);
    PendingSlotsExact(caps, prev, cur, sync);
    var slots := PendingSlots(caps, prev, cur, sync);
    if slots != [] {
      assert slots[0] in slots;
      SlotEventRoundTrip(sync.time, slots[0], Get(cur, slots[0]));
    }
  }
}
