/**
 * Iterators driven to completion: what each batch delivers, and what a whole sequence of
 * fetches delivers however the kernel cuts its stream into chunks.
 */
module Batches {
  import opened Compensation
  import opened DeviceState
  import opened Drivers
  import opened Engine
  import opened Events
  import opened Frames
  import opened Sequences
  import opened Wrappers

  /** What scanning one frame takes off what the batch will deliver. */
  lemma ScanOutput(buf: seq<InputEvent>, from: nat)
    requires from <= |buf|
    ensures var rest := buf[from..];
      match ScanFrom(buf, from)
      case Unfinished => BatchOutput(rest) == [] && BatchEnd(rest) == 0 && !BatchHitsDamage(rest)
      case DamagedUpTo(end) => BatchOutput(rest) == [] && BatchEnd(rest) == end - from && BatchHitsDamage(rest)
      case CleanUpTo(end) =>
        && BatchOutput(rest) == buf[from..end] + BatchOutput(buf[end..])
        && BatchEnd(rest) == end - from + BatchEnd(buf[end..])
        && BatchHitsDamage(rest) == BatchHitsDamage(buf[end..])
  {
    var scan := ScanFrom(buf, from);
    if scan.Unfinished? {
      NoReportOutputsNothing(buf[from..]);
    } else {
      CutAt(buf, from, scan.end);
      PeelFrame(buf[from..scan.end], buf[scan.end..]);
    }
  }

  // What an iterator at cursor `c` has yet to deliver.
  function Outstanding(e: Engine, c: Cursor): seq<InputEvent>
    requires c.hi <= |e.buf|
  {
    PendingFrame(e.caps, e.prev, e.state, c.sync) + (Slice(e.buf, c.lo, c.hi) + BatchOutput(e.buf[c.hi..]))
  }

  // Where it will stop, and whether with a damaged frame.
  function StopsAt(e: Engine, c: Cursor): nat
    requires c.hi <= |e.buf|
  {
    if c.consumed == c.hi then c.hi + BatchEnd(e.buf[c.hi..]) else c.consumed
  }

  predicate EndsDropped(e: Engine, c: Cursor)
    requires c.hi <= |e.buf|
  {
    e.dropped || BatchHitsDamage(e.buf[c.hi..])
  }

  lemma ScanStep(e: Engine, c: Cursor)
    requires Live(e, c) && c.sync.None? && c.lo == c.hi
    ensures var (e1, c1, out) := NextEvent(e, c);
      && e1.buf == e.buf && c1.hi <= |e.buf|
      && Outstanding(e, c) == (if out.Some? then [out.value] + Outstanding(e1, c1) else [])
      && StopsAt(e, c) == (if out.Some? then StopsAt(e1, c1) else c1.consumed)
      && EndsDropped(e, c) == (if out.Some? then EndsDropped(e1, c1) else e1.dropped)
  {
    hide BatchOutput, BatchEnd, BatchHitsDamage, Fold;
    NothingInRange(e.buf, c.hi);
    if c.consumed < c.hi {
      NoReportOutputsNothing(e.buf[|e.buf|..]);
    } else {
      ScanOutput(e.buf, c.hi);
      var scan := ScanFrom(e.buf, c.hi);
      if scan.CleanUpTo? { FrameOpens(e.buf, c.hi, scan.end, BatchOutput(e.buf[scan.end..])); }
    }
  }

  lemma NothingInRange(buf: seq<InputEvent>, at: nat)
    ensures Slice(buf, at, at) == []
    ensures forall more: seq<InputEvent> :: [] + ([] + more) == more
  {
  }

  // A frame about to be delivered, and the same once its first event is out.
  lemma FrameOpens(buf: seq<InputEvent>, lo: nat, hi: nat, more: seq<InputEvent>)
    requires lo < hi <= |buf|
    ensures buf[lo..hi] + more == [buf[lo]] + ([] + (Slice(buf, lo + 1, hi) + more))
  {
    YieldOutput(buf, lo, hi, more);
    EmptyUnit(buf[lo..hi] + more);
  }

  lemma OutstandingStep(e: Engine, c: Cursor)
    requires Live(e, c)
    ensures var (e1, c1, out) := NextEvent(e, c);
      && e1.buf == e.buf && c1.hi <= |e.buf|
      && Outstanding(e, c) == (if out.Some? then [out.value] + Outstanding(e1, c1) else [])
      && StopsAt(e, c) == (if out.Some? then StopsAt(e1, c1) else c1.consumed)
      && EndsDropped(e, c) == (if out.Some? then EndsDropped(e1, c1) else e1.dropped)
  {
    if c.sync.Some? {
      var (ev, rest) := Compensate(e.caps, e.prev, e.state, c.sync.value);
      PendingAfterEmit(e.caps, e.prev, e.state, c.sync.value);
      Associative([ev], PendingFrame(e.caps, Update(TRACKED, e.prev, ev), e.state, rest),
        Slice(e.buf, c.lo, c.hi) + BatchOutput(e.buf[c.hi..]));
    } else if c.lo < c.hi {
      YieldOutput(e.buf, c.lo, c.hi, BatchOutput(e.buf[c.hi..]));
    } else {
      ScanStep(e, c);
    }
  }

  /** Driving an iterator to completion delivers exactly what was outstanding. */
  lemma {:induction false} DriveOutput(e: Engine, c: Cursor)
    requires Live(e, c)
    ensures var (e', c', out) := Drive(e, c);
      out == Outstanding(e, c) && c'.consumed == StopsAt(e, c) && e'.dropped == EndsDropped(e, c)
    decreases Left(e, c)
  {
    NextProgresses(e, c);
    NextKeepsOk(e, c);
    OutstandingStep(e, c);
    var (e1, c1, out) := NextEvent(e, c);
    if out.Some? { DriveOutput(e1, c1); }
  }

  lemma YieldOutput(buf: seq<InputEvent>, lo: nat, hi: nat, more: seq<InputEvent>)
    requires lo < hi <= |buf|
    ensures [] + (Slice(buf, lo, hi) + more) == [buf[lo]] + ([] + (Slice(buf, lo + 1, hi) + more))
  {
  }

  /**
   * One batch, exactly. A synthetic frame comes first, and only when the previous batch ended
   * with a damaged frame; then the clean frames of the buffer up to the first damaged or
   * unfinished one. At most one damaged frame is used up.
   */
  lemma BatchExact(e: Engine, r: Reply)
    requires Safe(e) && r.Plausible(e.caps) && Fetch(e, r).1.Success?
    ensures var (e1, res) := Fetch(e, r); var (e', batch) := RunBatch(e, r);
      && r.read.Success? && e1.buf == e.buf + r.read.value
      && batch.value.synthetic ==
        (if e.dropped then PendingFrame(e.caps, e.state, e1.state, Some(KeyTypes(r.now, 0))) else [])
      && batch.value.kernel == BatchOutput(e1.buf)
      && e'.buf == e1.buf[BatchEnd(e1.buf)..]
      && e'.dropped == BatchHitsDamage(e1.buf)
  {
    FetchKeepsSafe(e, r);
    var (e1, res) := Fetch(e, r);
    DriveOutput(e1, START.(sync := res.value));
    var frame := PendingFrame(e1.caps, e1.prev, e1.state, res.value);
    assert e1.buf[0..] == e1.buf && Slice(e1.buf, 0, 0) == [];
    SplitOutstanding(frame, BatchOutput(e1.buf));
  }

  lemma SplitOutstanding(frame: seq<InputEvent>, kernel: seq<InputEvent>)
    ensures var out := frame + ([] + kernel); |frame| <= |out| && out[..|frame|] == frame && out[|frame|..] == kernel
  {
  }

  /** A failed fetch reads nothing. */
  lemma FailedBatch(e: Engine, r: Reply)
    requires Safe(e) && r.Plausible(e.caps) && Fetch(e, r).1.Failure?
    ensures RunBatch(e, r).1.None? && RunBatch(e, r).0.buf == e.buf
  {
  }

  /**
   * Chunk independence and conservation: however the kernel's stream is cut into reads, and
   * whatever fetches fail in between, what has been delivered, followed by the undamaged
   * frames still buffered, is exactly the undamaged frames of everything read, in order.
   */
  lemma {:induction false} ChunkIndependence(e: Engine, replies: seq<Reply>)
    requires Safe(e) && AllPlausible(e.caps, replies)
    ensures var (e', batches) := RunSync(e, replies); var stream := e.buf + Chunks(e, replies);
      && Kernels(batches) + Clean(e'.buf) == Clean(stream)
      && Tail(e'.buf) == Tail(stream)
    decreases |replies|
  {
    if replies == [] {
      assert e.buf + [] == e.buf;
      assert [] + Clean(e.buf) == Clean(e.buf);
    } else {
      var r, rest := replies[0], replies[1..];
      var (e1, batch) := RunBatch(e, r);
      ChunkIndependence(e1, rest);
      if batch.None? {
        assert [] + Chunks(e1, rest) == Chunks(e1, rest);
        FailedBatch(e, r);
      } else {
        BatchExact(e, r);
        var buf := Fetch(e, r).0.buf;
        var taken, left := BatchSplit(buf);
        assert left == e1.buf;
        Associative(e.buf, r.read.value, Chunks(e1, rest));
        Associative(taken, left, Chunks(e1, rest));
        AppendAtBoundary(taken, left + Chunks(e1, rest));
        ConsBatch(batch.value, RunSync(e1, rest).1);
        Associative(batch.value.kernel, Kernels(RunSync(e1, rest).1), Clean(RunSync(e, replies).0.buf));
      }
    }
  }

  lemma ConsBatch(b: Batch, more: seq<Batch>)
    ensures Kernels([b] + more) == b.kernel + Kernels(more)
    ensures Flatten([b] + more) == b.synthetic + b.kernel + Flatten(more)
    ensures Resyncs([b] + more) == (if b.synthetic != [] then 1 else 0) + Resyncs(more)
  {
    assert ([b] + more)[1..] == more;
  }

  /** Without damage nothing is held back: whole frames come out, the unfinished one stays. */
  lemma {:induction false} UndamagedStream(e: Engine, replies: seq<Reply>)
    requires Safe(e) && AllPlausible(e.caps, replies) && !e.dropped
    requires NoReport(e.buf) && !Damaged(e.buf + Chunks(e, replies))
    ensures var (e', batches) := RunSync(e, replies); var stream := e.buf + Chunks(e, replies);
      && Flatten(batches) == Clean(stream) && e'.buf == Tail(stream) && !e'.dropped
    decreases |replies|
  {
    if replies == [] {
      NoReportOutputsNothing(e.buf);
      assert e.buf + [] == e.buf;
    } else {
      var r, rest := replies[0], replies[1..];
      var (e1, batch) := RunBatch(e, r);
      if batch.None? {
        assert [] + Chunks(e1, rest) == Chunks(e1, rest);
        FetchResyncsIff(e, r);
        UndamagedStream(e1, rest);
      } else {
        UndamagedBatch(e, r, Chunks(e1, rest));
        UndamagedStream(e1, rest);
        ConsBatch(batch.value, RunSync(e1, rest).1);
        assert [] + batch.value.kernel == batch.value.kernel;
      }
    }
  }

  lemma UndamagedBatch(e: Engine, r: Reply, later: seq<InputEvent>)
    requires Safe(e) && r.Plausible(e.caps) && !e.dropped && Fetch(e, r).1.Success?
    requires !Damaged(e.buf + (r.read.value + later))
    ensures var (e1, batch) := RunBatch(e, r); var stream := e.buf + (r.read.value + later);
      && !e1.dropped && NoReport(e1.buf) && !Damaged(e1.buf + later) && batch.value.synthetic == []
      && Clean(stream) == batch.value.kernel + Clean(e1.buf + later) && Tail(stream) == Tail(e1.buf + later)
  {
    BatchExact(e, r);
    var buf := Fetch(e, r).0.buf;
    var taken, left := BatchSplit(buf);
    Associative(e.buf, r.read.value, later);
    Associative(taken, left, later);
    DamagedConcat(taken, left + later);
    if BatchHitsDamage(buf) { UndamagedCounts(taken); }
    AppendAtBoundary(taken, left + later);
    assert left == RunBatch(e, r).0.buf;
  }

  /**
   * Well-formed output: what a run delivers is a concatenation of frames, each ending in its
   * only SYN_REPORT and none holding a SYN_DROPPED, synthetic frames included.
   */
  lemma {:induction false} OutputWellFormed(e: Engine, replies: seq<Reply>)
    requires Safe(e) && AllPlausible(e.caps, replies)
    ensures var out := Flatten(RunSync(e, replies).1); AtBoundary(out) && !Damaged(out) && Clean(out) == out
    decreases |replies|
  {
    if replies == [] {
    } else {
      var r, rest := replies[0], replies[1..];
      var (e1, batch) := RunBatch(e, r);
      OutputWellFormed(e1, rest);
      if batch.Some? {
        BatchExact(e, r);
        var b, more := batch.value, RunSync(e1, rest).1;
        ConsBatch(b, more);
        if b.synthetic != [] { SyntheticIsFrame(e.caps, e.state, Fetch(e, r).0.state, KeyTypes(r.now, 0)); }
        var taken, left := BatchSplit(Fetch(e, r).0.buf);
        CleanIsWholeFrames(taken);
        JoinFrames(b.synthetic, b.kernel);
        JoinFrames(b.synthetic + b.kernel, Flatten(more));
      }
    }
    CleanFixedPoint(Flatten(RunSync(e, replies).1));
  }

  lemma JoinFrames(a: seq<InputEvent>, b: seq<InputEvent>)
    requires AtBoundary(a) && !Damaged(a) && AtBoundary(b) && !Damaged(b)
    ensures AtBoundary(a + b) && !Damaged(a + b)
  {
    AtBoundaryConcat(a, b);
    DamagedConcat(a, b);
  }

  lemma SyntheticIsFrame(caps: Caps, prev: StateVal, cur: StateVal, sync: SyncState)
    ensures var frame := PendingFrame(caps, prev, cur, Some(sync)); IsFrame(frame) && !Damaged(frame)
  {
    var slots := PendingSlots(caps, prev, cur, sync);
    var frame := PendingFrame(caps, prev, cur, Some(sync));
    forall i | 0 <= i < |slots| ensures !IsReport(frame[i]) && !IsDropped(frame[i]) {
      SlotEventRoundTrip(sync.time, slots[i], Get(cur, slots[i]));
    }
    assert frame[..|frame| - 1] == SlotEvents(sync.time, cur, slots);
  }

  /**
   * Counting: when every fetch succeeds, each damaged frame used up is answered by exactly one
   * synthetic frame, the last of them possibly still due.
   */
  lemma {:induction false} EveryDamageAnswered(e: Engine, replies: seq<Reply>)
    requires Safe(e) && AllPlausible(e.caps, replies)
    requires forall i | 0 <= i < |replies| :: replies[i].IoctlsSucceed(e.caps) && replies[i].read.Success?
    ensures var (e', batches) := RunSync(e, replies);
      Resyncs(batches) + (if e'.dropped then 1 else 0) + CountDamaged(e'.buf)
      == (if e.dropped then 1 else 0) + CountDamaged(e.buf + Chunks(e, replies))
    decreases |replies|
  {
    if replies == [] {
      assert e.buf + [] == e.buf;
    } else {
      hide CountDamaged, RunBatch;
      var r, rest := replies[0], replies[1..];
      var (e1, batch) := RunBatch(e, r);
      DamageOfBatch(e, r, Chunks(e1, rest));
      EveryDamageAnswered(e1, rest);
      ConsBatch(batch.value, RunSync(e1, rest).1);
    }
  }

  // One batch's share of the count: it answers what was due and leaves due what it used up.
  lemma DamageOfBatch(e: Engine, r: Reply, later: seq<InputEvent>)
    requires Safe(e) && r.Plausible(e.caps) && r.IoctlsSucceed(e.caps) && r.read.Success?
    ensures var (e1, batch) := RunBatch(e, r);
      && batch.Some?
      && (batch.value.synthetic != [] <==> e.dropped)
      && CountDamaged(e.buf + (r.read.value + later)) == (if e1.dropped then 1 else 0) + CountDamaged(e1.buf + later)
  {
    FetchResyncsIff(e, r);
    BatchExact(e, r);
    var taken, left := BatchSplit(Fetch(e, r).0.buf);
    Associative(e.buf, r.read.value, later);
    Associative(taken, left, later);
    AppendAtBoundary(taken, left + later);
    if e.dropped { SyntheticIsFrame(e.caps, e.state, Fetch(e, r).0.state, KeyTypes(r.now, 0)); }
    assert left == RunBatch(e, r).0.buf;
  }
}
