/**
 * The two drivers as whole programs: iterators driven to completion one fetch after another,
 * and the asynchronous stream polled again and again.
 */
module Drivers {
  import opened Compensation
  import opened DeviceState
  import opened Engine
  import opened Events
  import opened Frames
  import opened Wrappers

  predicate Live(e: Engine, c: Cursor) {
    Safe(e) && CursorOk(e, c)
  }

  // Calls that may still deliver something.
  function Left(e: Engine, c: Cursor): nat {
    |PendingFrame(e.caps, e.prev, e.state, c.sync)| + if c.lo <= |e.buf| then |e.buf| - c.lo else 0
  }

  lemma NextProgresses(e: Engine, c: Cursor)
    requires Live(e, c)
    ensures var (e', c', out) := NextEvent(e, c);
      Live(e', c') && (out.Some? ==> Left(e', c') < Left(e, c))
  {
    NextKeepsOk(e, c);
    if c.sync.Some? { PendingAfterEmit(e.caps, e.prev, e.state, c.sync.value); }
  }

  /** `for ev in device.fetch_events()?`: call `next` until it returns None. */
  function Drive(e: Engine, c: Cursor): (r: (Engine, Cursor, seq<InputEvent>))
    requires Live(e, c)
    ensures Live(r.0, r.1) && r.0.caps == e.caps && r.0.buf == e.buf
    decreases Left(e, c)
  {
    NextProgresses(e, c);
    NextKeepsOk(e, c);
    var (e1, c1, out) := NextEvent(e, c);
    if out.None? then (e1, c1, [])
    else
      var (e2, c2, more) := Drive(e1, c1);
      (e2, c2, [out.value] + more)
  }

  // One completed iterator: its synthetic frame, if it had one, and the kernel's events.
  datatype Batch = Batch(synthetic: seq<InputEvent>, kernel: seq<InputEvent>)

  function Flatten(batches: seq<Batch>): seq<InputEvent> {
    if batches == [] then [] else batches[0].synthetic + batches[0].kernel + Flatten(batches[1..])
  }

  function Kernels(batches: seq<Batch>): seq<InputEvent> {
    if batches == [] then [] else batches[0].kernel + Kernels(batches[1..])
  }

  function Resyncs(batches: seq<Batch>): nat {
    if batches == [] then 0 else (if batches[0].synthetic != [] then 1 else 0) + Resyncs(batches[1..])
  }

  predicate AllPlausible(caps: Caps, replies: seq<Reply>) {
    forall i | 0 <= i < |replies| :: replies[i].Plausible(caps)
  }

  // Everything the successful reads hand over. (A read after a failed ioctl is not made.)
  function Chunks(e: Engine, replies: seq<Reply>): seq<InputEvent>
    requires Safe(e) && AllPlausible(e.caps, replies)
    decreases |replies|
  {
    if replies == [] then []
    else
      var (e', batch) := RunBatch(e, replies[0]);
      (if batch.Some? then replies[0].read.value else []) + Chunks(e', replies[1..])
  }

  /** One `fetch_events`; when it succeeds, the iterator is driven to completion and dropped. */
  function RunBatch(e: Engine, r: Reply): (out: (Engine, Option<Batch>))
    requires Safe(e) && r.Plausible(e.caps)
    ensures Safe(out.0) && out.0.caps == e.caps
    ensures out.1.Some? <==> Fetch(e, r).1.Success?
    ensures out.1.Some? ==> r.read.Success?
  {
    FetchKeepsSafe(e, r);
    var (e1, res) := Fetch(e, r);
    if res.Failure? then (e1, None)
    else
      var c := START.(sync := res.value);
      var (e2, c2, out) := Drive(e1, c);
      var n := |PendingFrame(e1.caps, e1.prev, e1.state, c.sync)|;
      var n' := if n <= |out| then n else |out|;
      (DropIterator(e2, c2), Some(Batch(out[..n'], out[n'..])))
  }

  function RunSync(e: Engine, replies: seq<Reply>): (r: (Engine, seq<Batch>))
    requires Safe(e) && AllPlausible(e.caps, replies)
    ensures Safe(r.0) && r.0.caps == e.caps
    decreases |replies|
  {
    if replies == [] then (e, [])
    else
      var (e1, batch) := RunBatch(e, replies[0]);
      var (e2, more) := RunSync(e1, replies[1..]);
      (e2, if batch.Some? then [batch.value] + more else more)
  }

  // The asynchronous stream

  // What the reactor and the kernel answer, one wake-up after another.
  datatype Wake = NotReady | ReadyFailed(err: Errno) | Ready(reply: Reply)

  datatype Poll = Pending | Item(ev: InputEvent) | Failed(err: Errno)

  datatype Stream = Stream(e: Engine, c: Cursor)

  predicate WakesPlausible(caps: Caps, wakes: seq<Wake>) {
    forall i | 0 <= i < |wakes| && wakes[i].Ready? :: wakes[i].reply.Plausible(caps)
  }

  /**
   * A stream that last returned Pending or an error. Its range is stale: the buffer has been
   * drained under it, and it may even point past the end. Scanning from it finds no frame and
   * folds nothing new.
   */
  predicate Resting(s: Stream) {
    && Safe(s.e) && s.c.sync.None? && s.c.lo == s.c.hi && s.c.consumed == 0
    && (s.c.hi < |s.e.buf| ==>
          && !s.e.dropped && NoReport(s.e.buf[s.c.hi..])
          && Fold(TRACKED, s.e.state, s.e.buf[s.c.hi..]) == s.e.state)
  }

  // The same without the promise that rescanning folds nothing new. A stream made from a device
  // with a resynchronisation pending can only be held to this much.
  predicate Waiting(s: Stream) {
    && Safe(s.e) && s.c.sync.None? && s.c.lo == s.c.hi && s.c.consumed == 0
    && (s.c.hi < |s.e.buf| ==> NoReport(s.e.buf[s.c.hi..]))
  }

  // Delivering buffered frames, whether or not a resynchronisation is pending.
  predicate Scanning(s: Stream) {
    Safe(s.e) && s.c.sync.None? && s.c.consumed == s.c.hi && s.c.lo <= s.c.hi <= |s.e.buf|
  }

  predicate StreamOk(s: Stream) {
    Live(s.e, s.c) || Scanning(s) || Waiting(s)
  }

  /** A stream may be made from any device, in whatever state the iterators left it. */
  lemma AnyDeviceStreams(e: Engine)
    requires Safe(e)
    ensures StreamOk(Stream(e, START))
  {
  }

  // The drain at the end of the outer loop's body; the range is left as it is.
  function Drained(e: Engine, c: Cursor): Stream
    requires c.consumed <= |e.buf|
  {
    Stream(DropIterator(e, c), c.(consumed := 0))
  }

  lemma NoneRests(e: Engine, c: Cursor)
    requires Live(e, c) && c.sync.None? && SyncEvents(e, c).2.None?
    ensures var (e', c', out) := SyncEvents(e, c);
      c'.consumed <= |e'.buf| && Resting(Drained(e', c'))
  {
    hide Fold, Fits, Accepts;
    SyncEventsKeepsOk(e, c);
    var (e', c', out) := SyncEvents(e, c);
    var left := e'.buf[c'.consumed..];
    if c'.hi < |left| {
      assert ScanFrom(e.buf, c.hi).Unfinished? && c.consumed == c.hi && !e.dropped;
      assert Slice(e.buf, c.hi, |e.buf|) == left;
      SuffixRests(e.caps, e.state, left, c.hi);
    }
  }

  lemma SuffixRests(caps: Caps, s: StateVal, left: seq<InputEvent>, from: nat)
    requires Fits(caps, s) && from <= |left| && NoReport(left)
    ensures NoReport(left[from..])
    ensures Fold(TRACKED, Fold(TRACKED, s, left), left[from..]) == Fold(TRACKED, s, left)
  {
    FitsIsBounded(caps, s);
    ReplayAbsorbed(TRACKED, s, left[..from], left[from..]);
    assert left[..from] + left[from..] == left;
  }

  lemma RestingScansNothing(s: Stream)
    requires Resting(s)
    ensures SyncEvents(s.e, s.c) == (s.e, s.c, None) && Drained(s.e, s.c) == s
  {
    if s.c.hi < |s.e.buf| {
      NoReportOutputsNothing(s.e.buf[s.c.hi..]);
      assert Slice(s.e.buf, s.c.hi, |s.e.buf|) == s.e.buf[s.c.hi..];
    } else {
      assert Slice(s.e.buf, s.c.hi, |s.e.buf|) == [];
    }
    assert s.e.buf[0..] == s.e.buf;
  }

  lemma NothingFoundWaits(s: Stream)
    requires (Live(s.e, s.c) || Scanning(s)) && s.c.sync.None? && SyncEvents(s.e, s.c).2.None?
    ensures var (e', c', out) := SyncEvents(s.e, s.c); c'.consumed <= |e'.buf| && Waiting(Drained(e', c'))
  {
    var scan := ScanFrom(s.e.buf, s.c.hi);
    var (e', c', out) := SyncEvents(s.e, s.c);
    var seen := if scan.DamagedUpTo? then s.e.buf[s.c.hi..scan.end] else Slice(s.e.buf, s.c.hi, |s.e.buf|);
    FoldFits(s.e.caps, s.e.state, seen);
    var left := e'.buf[c'.consumed..];
    if c'.hi < |left| { assert left == s.e.buf[s.c.hi..]; }
  }

  lemma SomethingFoundScans(s: Stream)
    requires (Live(s.e, s.c) || Scanning(s)) && s.c.sync.None? && SyncEvents(s.e, s.c).2.Some?
    ensures var (e', c', out) := SyncEvents(s.e, s.c); Scanning(Stream(e', c')) && Left(e', c') < Left(s.e, s.c)
  {
    if s.c.lo == s.c.hi { FoldFits(s.e.caps, s.e.state, s.e.buf[s.c.hi..ScanFrom(s.e.buf, s.c.hi).end]); }
  }

  lemma WaitingScansNothing(s: Stream)
    requires Waiting(s)
    ensures var (e', c', out) := SyncEvents(s.e, s.c);
      out.None? && c' == s.c && e'.buf == s.e.buf && Waiting(Drained(e', c'))
  {
    if s.c.hi < |s.e.buf| { NoReportOutputsNothing(s.e.buf[s.c.hi..]); }
    FoldFits(s.e.caps, s.e.state, Slice(s.e.buf, s.c.hi, |s.e.buf|));
    assert s.e.buf[0..] == s.e.buf;
  }

  /** What scanning does to a stream in any condition. */
  lemma StreamScans(s: Stream)
    requires StreamOk(s) && s.c.sync.None?
    ensures s.c.lo < s.c.hi ==> s.c.hi <= |s.e.buf|
    ensures var (e', c', out) := SyncEvents(s.e, s.c);
      && e'.caps == s.e.caps
      && (out.Some? ==> Scanning(Stream(e', c')) && Left(e', c') < Left(s.e, s.c))
      && (out.None? ==> c'.consumed <= |e'.buf| && Waiting(Drained(e', c')))
  {
    if Live(s.e, s.c) || Scanning(s) {
      if SyncEvents(s.e, s.c).2.None? { NothingFoundWaits(s); } else { SomethingFoundScans(s); }
    } else {
      WaitingScansNothing(s);
    }
  }

  lemma FailedFetchWaits(s: Stream, r: Reply)
    requires Waiting(s) && r.Plausible(s.e.caps) && Fetch(s.e, r).1.Failure?
    ensures Waiting(s.(e := Fetch(s.e, r).0))
  {
    FetchKeepsSafe(s.e, r);
  }

  lemma FailedFetchRests(s: Stream, r: Reply)
    requires Resting(s) && r.Plausible(s.e.caps) && Fetch(s.e, r).1.Failure?
    ensures Resting(s.(e := Fetch(s.e, r).0))
  {
    FetchKeepsSafe(s.e, r);
    FetchResyncsIff(s.e, r);
  }

  /** `poll_event`. The wake-ups it does not use are returned. */
  function PollEvent(s: Stream, wakes: seq<Wake>): (r: (Stream, seq<Wake>, Poll))
    requires StreamOk(s) && WakesPlausible(s.e.caps, wakes)
    ensures StreamOk(r.0) && r.0.e.caps == s.e.caps && WakesPlausible(s.e.caps, r.1)
    ensures |r.1| <= |wakes| && (wakes != [] && !r.2.Item? ==> |r.1| < |wakes|)
    ensures r.2.Item? && |r.1| == |wakes| ==> r.1 == wakes && Left(r.0.e, r.0.c) < Left(s.e, s.c)
    decreases |wakes|, 1
  {
    if s.c.sync.Some? then
      var (ev, rest) := Compensate(s.e.caps, s.e.prev, s.e.state, s.c.sync.value);
      CompensateEmitsHead(s.e.caps, s.e.prev, s.e.state, s.c.sync.value);
      (s.(c := s.c.(sync := rest)), wakes, Item(ev))
    else
      StreamScans(s);
      var (e', c', out) := SyncEvents(s.e, s.c);
      if out.Some? then (Stream(e', c'), wakes, Item(out.value))
      else AwaitFetch(Drained(e', c'), wakes)
  }

  // The inner loop: wait until readable, try to fetch, and wait again if that would block.
  function AwaitFetch(s: Stream, wakes: seq<Wake>): (r: (Stream, seq<Wake>, Poll))
    requires Waiting(s) && WakesPlausible(s.e.caps, wakes)
    ensures StreamOk(r.0) && r.0.e.caps == s.e.caps && WakesPlausible(s.e.caps, r.1)
    ensures |r.1| <= |wakes| && (wakes != [] ==> |r.1| < |wakes|) && (r.2.Item? ==> |r.1| < |wakes|)
    decreases |wakes|, 0
  {
    if wakes == [] then (s, [], Pending)
    else
      var rest := wakes[1..];
      match wakes[0]
      case NotReady => (s, rest, Pending)
      case ReadyFailed(err) => (s, rest, Failed(err))
      case Ready(r) =>
        FetchKeepsSafe(s.e, r);
        var (e', res) := Fetch(s.e, r);
        if res.Success? then PollEvent(Stream(e', START.(sync := res.value)), rest)
        else
          FailedFetchWaits(s, r);
          if res.error == EAGAIN then AwaitFetch(s.(e := e'), rest)
          else (s.(e := e'), rest, Failed(res.error))
  }

  // Poll until every wake-up has been used and the stream is pending again.
  function RunAsync(s: Stream, wakes: seq<Wake>): (r: (Stream, seq<InputEvent>))
    requires StreamOk(s) && WakesPlausible(s.e.caps, wakes)
    ensures StreamOk(r.0)
    decreases |wakes|, Left(s.e, s.c), 1
  {
    var (s1, rest, p) := PollEvent(s, wakes);
    if p.Item? then
      var (s2, more) := RunAsync(s1, rest);
      (s2, [p.ev] + more)
    else if rest == [] then (s1, [])
    else RunAsync(s1, rest)
  }

  function Replies(wakes: seq<Wake>): seq<Reply> {
    if wakes == [] then []
    else (if wakes[0].Ready? then [wakes[0].reply] else []) + Replies(wakes[1..])
  }
}
