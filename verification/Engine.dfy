/**
 * The resynchronisation engine on values: what one fetch, one scan, one `next` and one drop
 * do to the buffer, the cached states and the cursor. The classes in SyncStream are proved
 * against these functions, and the runs in Runs and AsyncRefinement are built from them.
 */
module Engine {
  import opened Compensation
  import opened DeviceState
  import opened Events
  import opened Frames
  import opened Wrappers

  datatype Errno = EINTR | EAGAIN | OtherErrno(code: int)

  /**
   * Everything the kernel may answer during one fetch: the four state ioctls (one per
   * supported axis for the axes), then the read.
   */
  datatype Reply = Reply(
    now: TimeVal,
    keys: Result<seq<bool>, Errno>,
    abs: seq<Result<AbsInfo, Errno>>,
    switches: Result<seq<bool>, Errno>,
    leds: Result<seq<bool>, Errno>,
    read: Result<seq<InputEvent>, Errno>)
  {
    // The ioctls fill buffers of the arrays' lengths, and events read carry in-range codes
    // of supported types.
    predicate Plausible(caps: Caps) {
      && (keys.Success? ==> |keys.value| == caps.counts.keys as int)
      && |abs| == caps.counts.abs as int
      && (switches.Success? ==> |switches.value| == caps.counts.switches as int)
      && (leds.Success? ==> |leds.value| == caps.counts.leds as int)
      && (read.Success? ==> AllAccepted(caps, read.value))
    }

    predicate IoctlsSucceed(caps: Caps) {
      && (caps.keys.Some? ==> keys.Success?)
      && (caps.abs.Some? ==> forall i | 0 <= i < |abs| && i < |caps.abs.value| && caps.abs.value[i] :: abs[i].Success?)
      && (caps.switches.Some? ==> switches.Success?)
      && (caps.leds.Some? ==> leds.Success?)
    }

    predicate AxesSucceed(caps: Caps, upTo: nat) {
      caps.abs.Some? ==>
        forall i | 0 <= i < upTo && i < |abs| && i < |caps.abs.value| && caps.abs.value[i] :: abs[i].Success?
    }

    // The ioctl that reports a slot is made and succeeds: nothing before it failed.
    predicate Reaches(caps: Caps, slot: Slot) {
      && (slot.cls != KeyClass && caps.keys.Some? ==> keys.Success?)
      && match slot.cls
         case KeyClass => keys.Success?
         case AbsClass => AxesSucceed(caps, slot.code + 1)
         case SwitchClass => AxesSucceed(caps, |abs|) && switches.Success?
         case LedClass => AxesSucceed(caps, |abs|) && (caps.switches.Some? ==> switches.Success?) && leds.Success?
    }

    // The first of the calls a resynchronisation makes to fail is refused with `x`.
    ghost predicate FirstFailure(caps: Caps, x: Errno) {
      var keysDone := caps.keys.Some? ==> keys.Success?;
      var axesDone := keysDone && AxesSucceed(caps, |abs|);
      var switchesDone := axesDone && (caps.switches.Some? ==> switches.Success?);
      || (caps.keys.Some? && keys == Failure(x))
      || (keysDone && exists i :: AxisFails(caps, i, x))
      || (axesDone && caps.switches.Some? && switches == Failure(x))
      || (switchesDone && caps.leds.Some? && leds == Failure(x))
    }

    // The first supported axis to fail is number i, refused with `x`.
    predicate AxisFails(caps: Caps, i: int, x: Errno) {
      && caps.abs.Some? && 0 <= i < |abs| && i < |caps.abs.value| && caps.abs.value[i]
      && abs[i] == Failure(x) && AxesSucceed(caps, i)
    }

    // The kernel's own value of a slot, as this reply reports it.
    function Value(slot: Slot): i32 {
      match slot.cls
      case KeyClass => if keys.Success? then BitAt(Some(keys.value), slot.code) else 0
      case AbsClass => if slot.code < |abs| && abs[slot.code].Success? then abs[slot.code].value.value else 0
      case SwitchClass => if switches.Success? then BitAt(Some(switches.value), slot.code) else 0
      case LedClass => if leds.Success? then BitAt(Some(leds.value), slot.code) else 0
    }
  }

  predicate AllAccepted(caps: Caps, evs: seq<InputEvent>) {
    forall i | 0 <= i < |evs| :: Accepts(caps, evs[i])
  }

  datatype Engine = Engine(caps: Caps, buf: seq<InputEvent>, prev: StateVal, state: StateVal, dropped: bool)

  datatype Cursor = Cursor(lo: nat, hi: nat, consumed: nat, sync: Option<SyncState>)

  const START := Cursor(0, 0, 0, None)

  function Open(caps: Caps): Engine {
    Engine(caps, [], NewState(caps), NewState(caps), false)
  }

  // Fetching

  // `update_abs_state`: one ioctl per supported axis, stopping at the first that fails.
  function UpdateAbs(supported: seq<bool>, vals: seq<AbsInfo>, replies: seq<Result<AbsInfo, Errno>>, i: nat)
    : (r: (seq<AbsInfo>, Option<Errno>))
    requires |supported| == |vals| == |replies| && i <= |vals|
    ensures |r.0| == |vals|
    decreases |vals| - i
  {
    if i == |vals| then (vals, None)
    else if !supported[i] then UpdateAbs(supported, vals, replies, i + 1)
    else match replies[i]
      case Failure(err) => (vals, Some(err))
      case Success(info) => UpdateAbs(supported, vals[i := info], replies, i + 1)
  }

  function UpdateBits(bits: Option<seq<bool>>, reply: Result<seq<bool>, Errno>): (Option<seq<bool>>, Option<Errno>) {
    if bits.None? then (bits, None)
    else match reply
      case Failure(err) => (bits, Some(err))
      case Success(v) => (Some(v), None)
  }

  function UpdateAxes(caps: Caps, abs: Option<seq<AbsInfo>>, replies: seq<Result<AbsInfo, Errno>>)
    : (Option<seq<AbsInfo>>, Option<Errno>)
  {
    if abs.None? || caps.abs.None? || !(|caps.abs.value| == |abs.value| == |replies|) then (abs, None)
    else
      var (vals, err) := UpdateAbs(caps.abs.value, abs.value, replies, 0);
      (Some(vals), err)
  }

  /** `sync_state`: keys, axes, switches, LEDs, then the timestamp; the first failure ends it. */
  function Resync(caps: Caps, s: StateVal, r: Reply): (StateVal, Option<Errno>) {
    var (keys, e1) := UpdateBits(s.keys, r.keys);
    var s1 := s.(keys := keys);
    if e1.Some? then (s1, e1) else
    var (abs, e2) := UpdateAxes(caps, s.abs, r.abs);
    var s2 := s1.(abs := abs);
    if e2.Some? then (s2, e2) else
    var (switches, e3) := UpdateBits(s.switches, r.switches);
    var s3 := s2.(switches := switches);
    if e3.Some? then (s3, e3) else
    var (leds, e4) := UpdateBits(s.leds, r.leds);
    var s4 := s3.(leds := leds);
    if e4.Some? then (s4, e4) else (s4.(timestamp := r.now), None)
  }

  /** `fetch_events_inner`: the flag is taken first, so a failure after it is not retried. */
  function Fetch(e: Engine, r: Reply): (Engine, Result<Option<SyncState>, Errno>) {
    if e.dropped then
      var (state, err) := Resync(e.caps, e.state, r);
      var e1 := e.(prev := e.state, state := state, dropped := false);
      if err.Some? then (e1, Failure(err.value))
      else match r.read
        case Failure(x) => (e1, Failure(x))
        case Success(chunk) => (e1.(buf := e.buf + chunk), Success(Some(KeyTypes(r.now, 0))))
    else match r.read
      case Failure(x) => (e, Failure(x))
      case Success(chunk) => (e.(buf := e.buf + chunk), Success(None))
  }

  // Scanning

  // The events in [lo, hi), none when the range does not lie in the buffer.
  function Slice(buf: seq<InputEvent>, lo: nat, hi: nat): seq<InputEvent> {
    if lo <= hi <= |buf| then buf[lo..hi] else []
  }

  datatype Scan = Unfinished | DamagedUpTo(end: nat) | CleanUpTo(end: nat)

  // The next frame at or after `from`.
  function ScanFrom(buf: seq<InputEvent>, from: nat): (r: Scan)
    ensures r.DamagedUpTo? || r.CleanUpTo? ==>
      && from < r.end <= |buf| && IsFrame(buf[from..r.end])
      && (r.DamagedUpTo? <==> Damaged(buf[from..r.end]))
    ensures r.Unfinished? && from <= |buf| ==> NoReport(buf[from..])
  {
    if from >= |buf| then Unfinished
    else
      var rest := buf[from..];
      var k := FirstReport(rest);
      assert rest[..|rest|] == rest;
      if k == |rest| then Unfinished
      else
        var end := from + k + 1;
        var frame := buf[from..end];
        assert frame[..|frame| - 1] == rest[..k];
        if Damaged(frame) then DamagedUpTo(end) else CleanUpTo(end)
  }

  // SYN_REPORT and SYN_DROPPED by the kernel's numbers.
  predicate Ends(ev: InputEvent) {
    ev.etype == 0 && ev.code == 0
  }

  predicate Drops(ev: InputEvent) {
    ev.etype == 0 && ev.code == 3
  }

  /**
   * Where a scan stops and why, on the fields of the events: behind the first SYN_REPORT, with
   * damage if and only if a SYN_DROPPED comes before it, or nowhere when there is none.
   */
  lemma ScanExact(buf: seq<InputEvent>, from: nat)
    requires from <= |buf|
    ensures var scan := ScanFrom(buf, from);
      && (scan.Unfinished? <==> forall j | from <= j < |buf| :: !Ends(buf[j]))
      && (!scan.Unfinished? ==>
            && from < scan.end <= |buf| && Ends(buf[scan.end - 1])
            && (forall j | from <= j < scan.end - 1 :: !Ends(buf[j]))
            && (scan.DamagedUpTo? <==> exists j | from <= j < scan.end - 1 :: Drops(buf[j])))
  {
    var scan := ScanFrom(buf, from);
    if scan.Unfinished? {
      var rest := buf[from..];
      assert forall j | from <= j < |buf| :: buf[j] == rest[j - from];
    } else {
      ScannedFrame(buf, from, scan.end);
    }
  }

  lemma ScannedFrame(buf: seq<InputEvent>, from: nat, end: nat)
    requires from < end <= |buf| && IsFrame(buf[from..end])
    ensures Ends(buf[end - 1]) && forall j | from <= j < end - 1 :: !Ends(buf[j])
    ensures Damaged(buf[from..end]) <==> exists j | from <= j < end - 1 :: Drops(buf[j])
  {
    var frame := buf[from..end];
    assert forall j | from <= j < end :: buf[j] == frame[j - from];
    assert forall i | 0 <= i < |frame| - 1 :: frame[i] == frame[..|frame| - 1][i];
    if Damaged(frame) {
      var i :| 0 <= i < |frame| && IsDropped(frame[i]);
      assert Drops(buf[from + i]);
    }
    if j :| from <= j < end - 1 && Drops(buf[j]) {
      assert IsDropped(frame[j - from]);
    }
  }

  /** One call of `sync_events` with `process_event` as its callback, and the use both drivers make of it. */
  function SyncEvents(e: Engine, c: Cursor): (Engine, Cursor, Option<InputEvent>)
    requires c.lo < c.hi ==> c.hi <= |e.buf|
  {
    if c.lo < c.hi then (e, c.(lo := c.lo + 1), Some(e.buf[c.lo]))
    else match ScanFrom(e.buf, c.hi)
      case Unfinished =>
        (e.(state := Fold(TRACKED, e.state, Slice(e.buf, c.hi, |e.buf|))), c, None)
      case DamagedUpTo(end) =>
        (e.(state := Fold(TRACKED, e.state, e.buf[c.hi..end]), dropped := true),
         c.(lo := |e.buf|, hi := |e.buf|, consumed := end), None)
      case CleanUpTo(end) =>
        (e.(state := Fold(TRACKED, e.state, e.buf[c.hi..end])),
         c.(lo := c.hi + 1, hi := end, consumed := end), Some(e.buf[c.hi]))
  }

  /** `FetchEventsSynced::next`. */
  function NextEvent(e: Engine, c: Cursor): (Engine, Cursor, Option<InputEvent>)
    requires CursorOk(e, c)
  {
    if c.sync.Some? then
      var (ev, rest) := Compensate(e.caps, e.prev, e.state, c.sync.value);
      (e.(prev := Update(TRACKED, e.prev, ev)), c.(sync := rest), Some(ev))
    else SyncEvents(e, c)
  }

  /** `Drop for FetchEventsSynced`. */
  function DropIterator(e: Engine, c: Cursor): Engine
    requires c.consumed <= |e.buf|
  {
    e.(buf := e.buf[c.consumed..])
  }

  // Invariants

  /**
   * The cursor of a live iterator. A non-empty range ends where the iterator has consumed
   * to; only a damaged frame moves the range elsewhere, to the end of the buffer.
   */
  predicate CursorOk(e: Engine, c: Cursor) {
    && c.lo <= c.hi <= |e.buf|
    && (c.consumed == c.hi || (c.consumed < c.hi && c.lo == c.hi == |e.buf|))
    && (c.sync.Some? ==> c.hi == 0 && c.consumed == 0 && !e.dropped && c.sync.value.InRange(e.caps))
    && (e.dropped ==> c.lo == c.hi == |e.buf|)
    && (c.consumed < c.hi ==> e.dropped)
  }

  // No `expect`, index or slice of the engine can fail on such a state.
  predicate Safe(e: Engine) {
    Fits(e.caps, e.prev) && Fits(e.caps, e.state) && AllAccepted(e.caps, e.buf)
  }

  lemma FitsIsBounded(caps: Caps, s: StateVal)
    requires Fits(caps, s)
    ensures Bounded(s)
  {
    forall cls: Class ensures Length(s, cls).Some? ==> Length(s, cls).value <= 0x1_0000 {
      assert caps.Supported(cls).Some? ==> |caps.Supported(cls).value| == caps.counts.Of(cls) as int;
      assert Length(s, cls) == if caps.Supported(cls).Some? then Some(|caps.Supported(cls).value|) else None;
    }
  }

  lemma FoldFits(caps: Caps, s: StateVal, evs: seq<InputEvent>)
    requires Fits(caps, s)
    ensures Fits(caps, Fold(TRACKED, s, evs))
  {
    FoldKeepsShape(TRACKED, s, evs);
    forall cls: Class ensures Length(Fold(TRACKED, s, evs), cls) == Length(s, cls) {}
  }

  lemma UpdateFits(caps: Caps, s: StateVal, ev: InputEvent)
    requires Fits(caps, s)
    ensures Fits(caps, Update(TRACKED, s, ev))
  {
    FoldFits(caps, s, [ev]);
    FoldOne(TRACKED, s, ev);
  }

  lemma AcceptedConcat(caps: Caps, a: seq<InputEvent>, b: seq<InputEvent>)
    requires AllAccepted(caps, a) && AllAccepted(caps, b)
    ensures AllAccepted(caps, a + b)
  {
  }

  lemma {:induction false} UpdateAbsReads(
      supported: seq<bool>, vals: seq<AbsInfo>, replies: seq<Result<AbsInfo, Errno>>, i: nat)
    requires |supported| == |vals| == |replies| && i <= |vals|
    ensures var (out, err) := UpdateAbs(supported, vals, replies, i);
      && (err.None? <==> forall j | i <= j < |vals| && supported[j] :: replies[j].Success?)
      && (forall j | 0 <= j < |vals| && (j < i || !supported[j]) :: out[j] == vals[j])
      && (err.None? ==> forall j | i <= j < |vals| && supported[j] :: out[j] == replies[j].value)
    decreases |vals| - i
  {
    if i == |vals| {
    } else {
      if !supported[i] {
        UpdateAbsReads(supported, vals, replies, i + 1);
      } else if replies[i].Success? {
        UpdateAbsReads(supported, vals[i := replies[i].value], replies, i + 1);
      }
    }
  }

  lemma {:induction false} UpdateAbsStopsAt(
      supported: seq<bool>, vals: seq<AbsInfo>, replies: seq<Result<AbsInfo, Errno>>, i: nat, j: nat)
    requires |supported| == |vals| == |replies| && i <= j < |vals| && supported[j]
    ensures UpdateAbs(supported, vals, replies, i).0[j] ==
      if forall k | i <= k <= j && supported[k] :: replies[k].Success? then replies[j].value else vals[j]
    decreases |vals| - i
  {
    if i < j {
      if !supported[i] {
        UpdateAbsStopsAt(supported, vals, replies, i + 1, j);
      } else if replies[i].Success? {
        UpdateAbsStopsAt(supported, vals[i := replies[i].value], replies, i + 1, j);
      }
    } else if replies[i].Success? {
      UpdateAbsReads(supported, vals[i := replies[i].value], replies, i + 1);
    }
  }

  lemma {:induction false} UpdateAbsFails(
      supported: seq<bool>, vals: seq<AbsInfo>, replies: seq<Result<AbsInfo, Errno>>, i: nat, x: Errno)
    requires |supported| == |vals| == |replies| && i <= |vals|
    ensures UpdateAbs(supported, vals, replies, i).1 == Some(x) <==>
      exists j | i <= j < |vals| && supported[j] :: replies[j] == Failure(x) && SuccessBetween(supported, replies, i, j)
    decreases |vals| - i
  {
    if i == |vals| {
    } else {
      var next := if supported[i] && replies[i].Success? then vals[i := replies[i].value] else vals;
      UpdateAbsFails(supported, next, replies, i + 1, x);
      if !supported[i] || replies[i].Success? {
        forall j | i < j <= |vals|
          ensures SuccessBetween(supported, replies, i, j) <==> SuccessBetween(supported, replies, i + 1, j)
        {
        }
      } else {
        assert SuccessBetween(supported, replies, i, i);
      }
    }
  }

  predicate SuccessBetween(supported: seq<bool>, replies: seq<Result<AbsInfo, Errno>>, i: int, j: int)
    requires |supported| == |replies|
  {
    forall k | 0 <= k < |replies| && i <= k < j && supported[k] :: replies[k].Success?
  }

  lemma AxisFailure(caps: Caps, vals: seq<AbsInfo>, r: Reply, x: Errno)
    requires caps.abs.Some? && |caps.abs.value| == |vals| == |r.abs|
    ensures UpdateAbs(caps.abs.value, vals, r.abs, 0).1 == Some(x) <==> exists i :: r.AxisFails(caps, i, x)
  {
    UpdateAbsFails(caps.abs.value, vals, r.abs, 0, x);
    forall i | 0 <= i < |vals|
      ensures r.AxesSucceed(caps, i) <==> SuccessBetween(caps.abs.value, r.abs, 0, i)
    {
    }
    if UpdateAbs(caps.abs.value, vals, r.abs, 0).1 == Some(x) {
      var j :| 0 <= j < |vals| && caps.abs.value[j]
        && r.abs[j] == Failure(x) && SuccessBetween(caps.abs.value, r.abs, 0, j);
      assert r.AxisFails(caps, j, x);
    }
    if i :| r.AxisFails(caps, i, x) {
      assert SuccessBetween(caps.abs.value, r.abs, 0, i);
    }
  }

  lemma ResyncFailsIff(caps: Caps, s: StateVal, r: Reply, x: Errno)
    requires Fits(caps, s) && r.Plausible(caps)
    ensures Resync(caps, s, r).1 == Some(x) <==> r.FirstFailure(caps, x)
  {
    hide UpdateAbs;
    FitsFields(caps, s);
    if caps.abs.Some? {
      AxisFailure(caps, s.abs.value, r, x);
      UpdateAbsReads(caps.abs.value, s.abs.value, r.abs, 0);
    }
  }

  // The fetch fails with `x`, told by the flag and the kernel's answers.
  ghost predicate Refuses(e: Engine, r: Reply, x: Errno) {
    || (e.dropped && r.FirstFailure(e.caps, x))
    || ((e.dropped ==> r.IoctlsSucceed(e.caps)) && r.read == Failure(x))
  }

  /**
   * Which error a fetch reports: that of the first ioctl to fail if the flag was set, else the
   * read's, when the ioctls succeeded or none was due.
   */
  lemma FetchFailsIff(e: Engine, r: Reply, x: Errno)
    requires Safe(e) && r.Plausible(e.caps)
    ensures Fetch(e, r).1 == Failure(x) <==> Refuses(e, r, x)
  {
    ResyncReadsKernel(e.caps, e.state, r);
    ResyncFailsIff(e.caps, e.state, r, x);
  }

  /**
   * A failed resynchronisation is partial, exactly: a supported slot reads the kernel's value
   * if its ioctl was reached, and what it read before if not.
   */
  lemma PartialResync(caps: Caps, s: StateVal, r: Reply, slot: Slot)
    requires Fits(caps, s) && r.Plausible(caps) && caps.Supports(slot)
    ensures Get(Resync(caps, s, r).0, slot) == if r.Reaches(caps, slot) then r.Value(slot) else Get(s, slot)
  {
    FitsFields(caps, s);
    if caps.abs.Some? {
      UpdateAbsReads(caps.abs.value, s.abs.value, r.abs, 0);
      if slot.cls == AbsClass { UpdateAbsStopsAt(caps.abs.value, s.abs.value, r.abs, 0, slot.code); }
    }
  }

  /**
   * A resynchronisation succeeds exactly when every ioctl it needs does, and then the cache
   * holds the kernel's value in every supported slot. It never changes the shape.
   */
  lemma ResyncReadsKernel(caps: Caps, s: StateVal, r: Reply)
    requires Fits(caps, s) && r.Plausible(caps)
    ensures Fits(caps, Resync(caps, s, r).0)
    ensures Resync(caps, s, r).1.None? <==> r.IoctlsSucceed(caps)
    ensures Resync(caps, s, r).1.None? ==>
      forall slot: Slot | caps.Supports(slot) :: Get(Resync(caps, s, r).0, slot) == r.Value(slot)
  {
    FitsFields(caps, s);
    if caps.abs.Some? { UpdateAbsReads(caps.abs.value, s.abs.value, r.abs, 0); }
    var (t, err) := Resync(caps, s, r);
    FitsFromFields(caps, t);
    if err.None? {
      forall slot: Slot | caps.Supports(slot) ensures Get(t, slot) == r.Value(slot) {}
    }
  }

  /**
   * The whole resynchronised state: the three bitmaps are the kernel's, supported axes take the
   * kernel's record, unsupported ones keep theirs, and only success moves the timestamp.
   */
  lemma ResyncWholeState(caps: Caps, s: StateVal, r: Reply)
    requires Fits(caps, s) && r.Plausible(caps)
    ensures var (t, err) := Resync(caps, s, r);
      && t.timestamp == (if err.None? then r.now else s.timestamp)
      && (err.None? ==>
            && (s.keys.Some? ==> t.keys.Some? && r.keys == Success(t.keys.value))
            && (s.switches.Some? ==> t.switches.Some? && r.switches == Success(t.switches.value))
            && (s.leds.Some? ==> t.leds.Some? && r.leds == Success(t.leds.value))
            && (s.abs.Some? ==>
                  && caps.abs.Some? && t.abs.Some?
                  && |t.abs.value| == |s.abs.value| == |caps.abs.value| == |r.abs|
                  && forall i | 0 <= i < |r.abs| ::
                       if caps.abs.value[i] then r.abs[i] == Success(t.abs.value[i])
                       else t.abs.value[i] == s.abs.value[i]))
  {
    FitsFields(caps, s);
    if caps.abs.Some? { UpdateAbsReads(caps.abs.value, s.abs.value, r.abs, 0); }
  }

  lemma FitsFields(caps: Caps, s: StateVal)
    requires Fits(caps, s)
    ensures s.keys.Some? == caps.keys.Some?
      && (s.keys.Some? ==> |s.keys.value| == |caps.keys.value| == caps.counts.keys as int)
    ensures s.abs.Some? == caps.abs.Some?
      && (s.abs.Some? ==> |s.abs.value| == |caps.abs.value| == caps.counts.abs as int)
    ensures s.switches.Some? == caps.switches.Some?
      && (s.switches.Some? ==> |s.switches.value| == |caps.switches.value| == caps.counts.switches as int)
    ensures s.leds.Some? == caps.leds.Some?
      && (s.leds.Some? ==> |s.leds.value| == |caps.leds.value| == caps.counts.leds as int)
  {
    assert Length(s, KeyClass) == if caps.keys.Some? then Some(|caps.keys.value|) else None;
    assert Length(s, AbsClass) == if caps.abs.Some? then Some(|caps.abs.value|) else None;
    assert Length(s, SwitchClass) == if caps.switches.Some? then Some(|caps.switches.value|) else None;
    assert Length(s, LedClass) == if caps.leds.Some? then Some(|caps.leds.value|) else None;
    assert caps.Supported(KeyClass) == caps.keys && caps.Supported(AbsClass) == caps.abs;
    assert caps.Supported(SwitchClass) == caps.switches && caps.Supported(LedClass) == caps.leds;
  }

  lemma FitsFromFields(caps: Caps, s: StateVal)
    requires s.keys.Some? == caps.keys.Some? && (s.keys.Some? ==> |s.keys.value| == |caps.keys.value|)
    requires s.abs.Some? == caps.abs.Some? && (s.abs.Some? ==> |s.abs.value| == |caps.abs.value|)
    requires s.switches.Some? == caps.switches.Some?
      && (s.switches.Some? ==> |s.switches.value| == |caps.switches.value|)
    requires s.leds.Some? == caps.leds.Some? && (s.leds.Some? ==> |s.leds.value| == |caps.leds.value|)
    ensures Fits(caps, s)
  {
  }

  /** A fetch keeps the engine safe; on success its cursor starts over. */
  lemma FetchKeepsSafe(e: Engine, r: Reply)
    requires Safe(e) && r.Plausible(e.caps)
    ensures var (e', res) := Fetch(e, r);
      && Safe(e') && !e'.dropped && e'.caps == e.caps
      && (res.Success? ==> CursorOk(e', START.(sync := res.value)))
  {
    ResyncReadsKernel(e.caps, e.state, r);
    if r.read.Success? { AcceptedConcat(e.caps, e.buf, r.read.value); }
  }

  /**
   * A damaged frame is answered by a synthetic one exactly when every call of the fetch that
   * follows it succeeds. Otherwise the flag is gone all the same: nothing retries.
   */
  lemma FetchResyncsIff(e: Engine, r: Reply)
    requires Safe(e) && r.Plausible(e.caps)
    ensures var (e', res) := Fetch(e, r);
      && (res.Success? && res.value.Some? <==> e.dropped && r.IoctlsSucceed(e.caps) && r.read.Success?)
      && !e'.dropped
      && (!e.dropped && r.read.Failure? ==> e' == e)
  {
    ResyncReadsKernel(e.caps, e.state, r);
  }

  lemma SyncEventsKeepsOk(e: Engine, c: Cursor)
    requires Safe(e) && CursorOk(e, c) && c.sync.None?
    ensures var (e', c', out) := SyncEvents(e, c);
      Safe(e') && CursorOk(e', c') && c'.sync.None? && e'.caps == e.caps && e'.buf == e.buf && e'.prev == e.prev
  {
    if c.lo == c.hi {
      match ScanFrom(e.buf, c.hi)
      case Unfinished => FoldFits(e.caps, e.state, Slice(e.buf, c.hi, |e.buf|));
      case DamagedUpTo(end) => FoldFits(e.caps, e.state, e.buf[c.hi..end]);
      case CleanUpTo(end) => FoldFits(e.caps, e.state, e.buf[c.hi..end]);
    }
  }

  /**
   * Reachable-state safety: `next` keeps the shapes of both states, the acceptability of the
   * buffer, and every cursor inside its array.
   */
  lemma NextKeepsOk(e: Engine, c: Cursor)
    requires Safe(e) && CursorOk(e, c)
    ensures var (e', c', out) := NextEvent(e, c);
      Safe(e') && CursorOk(e', c') && e'.caps == e.caps && e'.buf == e.buf
  {
    if c.sync.Some? {
      UpdateFits(e.caps, e.prev, Compensate(e.caps, e.prev, e.state, c.sync.value).0);
    } else {
      SyncEventsKeepsOk(e, c);
    }
  }

  /**
   * While a synthetic frame is delivered, `prev_state` follows: every key and axis the cursor
   * has passed reads the same in both states, and after the SYN_REPORT all of them do.
   */
  lemma NextCatchesUp(e: Engine, c: Cursor)
    requires Safe(e) && CursorOk(e, c) && c.sync.Some?
    requires AgreeBelow(e.caps, e.prev, e.state, c.sync)
    ensures var (e', c', out) := NextEvent(e, c); e'.state == e.state && AgreeBelow(e.caps, e'.prev, e'.state, c'.sync)
  {
    FoldingEmittedCatchesUp(e.caps, e.prev, e.state, c.sync.value);
  }

  /**
   * Fused iteration: after `next` has returned None it returns None for ever, and neither the
   * states, nor the flag, nor the cursor change any more. This holds after an unfinished
   * frame and after a damaged one, whatever complete frames follow it in the buffer.
   */
  lemma NoneIsFinal(e: Engine, c: Cursor)
    requires Safe(e) && CursorOk(e, c) && NextEvent(e, c).2.None?
    ensures var (e', c', out) := NextEvent(e, c);
      CursorOk(e', c') && NextEvent(e', c') == (e', c', None)
  {
    NextKeepsOk(e, c);
    var tail := Slice(e.buf, c.hi, |e.buf|);
    if ScanFrom(e.buf, c.hi).Unfinished? {
      RefoldIsNoOp(e.caps, e.state, tail);
    } else {
      var e' := NextEvent(e, c).0;
      assert Slice(e.buf, |e.buf|, |e.buf|) == [];
      assert ScanFrom(e'.buf, |e.buf|) == Unfinished;
    }
  }

  lemma RefoldIsNoOp(caps: Caps, s: StateVal, evs: seq<InputEvent>)
    requires Fits(caps, s)
    ensures Fold(TRACKED, Fold(TRACKED, s, evs), evs) == Fold(TRACKED, s, evs)
  {
    FitsIsBounded(caps, s);
    ReplayAbsorbed(TRACKED, s, [], evs);
    assert [] + evs == evs;
  }
}
