/**
 * Every run of the synchronous driver: any sequence of fetches (any chunk, any snapshot, any
 * failure), of `next` calls, and of iterator drops at any point. A history records what the
 * run read, delivered and discarded; the invariants hold after every step.
 */
module Runs {
  import opened Compensation
  import opened DeviceState
  import opened Engine
  import opened Events
  import opened Frames
  import opened Sequences
  import opened Wrappers

  // A device, and the iterator currently borrowing it, if any.
  datatype World = World(e: Engine, it: Option<Cursor>)

  datatype Op = FetchOp(reply: Reply) | NextOp | DropOp

  datatype Entry =
    | Kernel(ev: InputEvent)
    | Synthetic(ev: InputEvent)
    | LostKernel(ev: InputEvent)
    | LostSynthetic(ev: InputEvent)

  datatype History = History(
    read: seq<InputEvent>,      // everything the kernel handed over
    past: seq<InputEvent>,      // the part of it drained from the buffer
    log: seq<Entry>,            // what was delivered, and what dropping an iterator discarded
    view: StateVal,             // a consumer's own fold of everything delivered
    origin: StateVal,           // the cache at the last resynchronisation, or at opening
    trail: seq<InputEvent>,     // events drained since then
    scanned: nat,               // how far into the buffer the cache has been folded
    stale: iset<Slot>,          // slots the consumer may have wrong
    resyncs: nat,               // synthetic frames started
    unanswered: nat)            // damaged frames whose fetch failed

  function Position(w: World): Cursor {
    if w.it.Some? then w.it.value else START
  }

  predicate OkWorld(w: World) {
    Safe(w.e) && (w.it.Some? ==> CursorOk(w.e, w.it.value))
  }

  // The borrow checker's rules, and a kernel that only reports what the device supports.
  predicate Legal(w: World, op: Op) {
    match op
    case FetchOp(r) => w.it.None? && r.Plausible(w.e.caps)
    case NextOp => w.it.Some?
    case DropOp => w.it.Some?
  }

  ghost function Written(evs: seq<InputEvent>): iset<Slot> {
    iset slot: Slot | LastWrite(evs, slot).Some?
  }

  ghost function Differing(caps: Caps, prev: StateVal, cur: StateVal): iset<Slot> {
    iset slot: Slot | Differs(caps, prev, cur, slot)
  }

  function Lost(evs: seq<InputEvent>, fromKernel: bool): seq<Entry> {
    seq(|evs|, i requires 0 <= i < |evs| => if fromKernel then LostKernel(evs[i]) else LostSynthetic(evs[i]))
  }

  ghost function AfterFetch(w: World, h: History, r: Reply): (World, History)
    requires OkWorld(w) && Legal(w, FetchOp(r))
    ensures OkWorld(AfterFetch(w, h, r).0)
  {
    FetchKeepsSafe(w.e, r);
    var (e', res) := Fetch(w.e, r);
    var w' := World(e', if res.Success? then Some(START.(sync := res.value)) else None);
    var h1 := h.(read := h.read + if res.Success? then r.read.value else []);
    if !w.e.dropped then (w', h1)
    else
      var h2 := h1.(origin := e'.state, trail := [], scanned := 0);
      if res.Success? then
        (w', h2.(stale := h.stale - Differing(w.e.caps, e'.prev, e'.state), resyncs := h.resyncs + 1))
      else
        (w', h2.(stale := h.stale + Differing(w.e.caps, e'.prev, e'.state), unanswered := h.unanswered + 1))
  }

  ghost function Deliver(h: History, entry: Entry): History {
    h.(log := h.log + [entry], view := Update(ALL, h.view, entry.ev))
  }

  ghost function AfterNext(w: World, h: History): (World, History)
    requires OkWorld(w) && Legal(w, NextOp)
    ensures OkWorld(AfterNext(w, h).0)
  {
    var c := w.it.value;
    NextKeepsOk(w.e, c);
    var (e', c', out) := NextEvent(w.e, c);
    var w' := World(e', Some(c'));
    if c.sync.Some? then (w', Deliver(h, Synthetic(out.value)))
    else if c.lo < c.hi then (w', Deliver(h, Kernel(out.value)))
    else match ScanFrom(w.e.buf, c.hi)
      case Unfinished => (w', if c.consumed == c.hi then h.(scanned := |w.e.buf|) else h)
      case DamagedUpTo(end) => (w', h.(scanned := end, stale := h.stale + Written(w.e.buf[c.hi..end])))
      case CleanUpTo(end) =>
        (w', Deliver(h.(scanned := end, stale := h.stale - Written(w.e.buf[c.hi..end])), Kernel(out.value)))
  }

  ghost function AfterDrop(w: World, h: History): (World, History)
    requires OkWorld(w) && Legal(w, DropOp)
    ensures OkWorld(AfterDrop(w, h).0)
  {
    var c := w.it.value;
    var used := w.e.buf[..c.consumed];
    var unsent := PendingFrame(w.e.caps, w.e.prev, w.e.state, c.sync);
    var rest := Slice(w.e.buf, c.lo, c.hi);
    (World(DropIterator(w.e, c), None),
     h.(past := h.past + used, trail := h.trail + used,
        scanned := if h.scanned >= c.consumed then h.scanned - c.consumed else 0,
        log := h.log + Lost(unsent, false) + Lost(rest, true),
        stale := h.stale + Written(unsent) + Written(rest)))
  }

  ghost function After(w: World, h: History, op: Op): (World, History)
    requires OkWorld(w) && Legal(w, op)
    ensures OkWorld(After(w, h, op).0)
  {
    match op
    case FetchOp(r) => AfterFetch(w, h, r)
    case NextOp => AfterNext(w, h)
    case DropOp => AfterDrop(w, h)
  }

  function Opened(caps: Caps): World {
    World(Open(caps), None)
  }

  ghost function NothingYet(caps: Caps): History {
    History([], [], [], NewState(caps), NewState(caps), [], 0, iset{}, 0, 0)
  }

  ghost predicate LegalRun(w: World, h: History, ops: seq<Op>)
    requires OkWorld(w)
    decreases |ops|
  {
    ops == [] ||
    (Legal(w, ops[0]) && var (w', h') := After(w, h, ops[0]); LegalRun(w', h', ops[1..]))
  }

  ghost function Run(w: World, h: History, ops: seq<Op>): (World, History)
    requires OkWorld(w) && LegalRun(w, h, ops)
    ensures OkWorld(Run(w, h, ops).0)
    decreases |ops|
  {
    if ops == [] then (w, h) else var (w', h') := After(w, h, ops[0]); Run(w', h', ops[1..])
  }

  // The kernel's events in the log, delivered or discarded.
  function KernelPart(log: seq<Entry>): seq<InputEvent> {
    if log == [] then []
    else
      var last := log[|log| - 1];
      KernelPart(log[..|log| - 1]) + if last.Kernel? || last.LostKernel? then [last.ev] else []
  }

  // What the consumer received.
  function Delivered(log: seq<Entry>): seq<InputEvent> {
    if log == [] then []
    else
      var last := log[|log| - 1];
      Delivered(log[..|log| - 1]) + if last.Kernel? || last.Synthetic? then [last.ev] else []
  }

  // Invariants

  /**
   * Where scanning stands. The events from the end of the last opened frame up to `scanned`
   * hold no SYN_REPORT: they belong to an unfinished frame that will be scanned again.
   */
  ghost predicate ScanOk(w: World, h: History) {
    var c := Position(w);
    && c.consumed <= h.scanned <= |w.e.buf|
    && (w.it.None? ==> NoReport(w.e.buf[..h.scanned]) && (w.e.dropped ==> h.scanned == 0))
    && (w.it.Some? ==>
          && c.hi <= |w.e.buf|
          && (c.sync.Some? ==> h.scanned == 0)
          && (c.consumed == c.hi ==> NoReport(w.e.buf[c.hi..h.scanned]))
          && (c.lo < c.hi ==> h.scanned == c.hi && IsFrame(w.e.buf[c.lo..c.hi]))
          && (w.e.dropped ==> h.scanned == c.consumed))
  }

  /**
   * Conservation: the kernel events delivered or discarded so far, then the rest of the frame
   * being delivered, are exactly the undamaged frames of the events used up, in order.
   */
  predicate Conserved(w: World, h: History) {
    var c := Position(w);
    && h.read == h.past + w.e.buf
    && ConservedAt(h.past, w.e.buf, c.lo, c.hi, c.consumed, h.log, Answerable(w, h))
  }

  // Damaged frames used up: answered, given up, or due.
  function Answerable(w: World, h: History): nat {
    h.resyncs + h.unanswered + if w.e.dropped then 1 else 0
  }

  predicate ConservedAt(
      past: seq<InputEvent>, buf: seq<InputEvent>, lo: nat, hi: nat, consumed: nat, log: seq<Entry>, damaged: nat)
  {
    && consumed <= |buf|
    && AtBoundary(past + buf[..consumed])
    && KernelPart(log) + Slice(buf, lo, hi) == Clean(past + buf[..consumed])
    && CountDamaged(past + buf[..consumed]) == damaged
  }

  /** The cache is one fold, from the last resynchronisation, of every event scanned since. */
  ghost predicate Cached(w: World, h: History) {
    && h.scanned <= |w.e.buf|
    && Fits(w.e.caps, h.origin)
    && w.e.state == Fold(TRACKED, h.origin, h.trail + w.e.buf[..h.scanned])
    && (h.resyncs + h.unanswered == 0 ==> h.origin == NewState(w.e.caps) && h.trail == h.past)
  }

  ghost predicate Viewed(w: World, h: History) {
    Fits(w.e.caps, h.view) && h.view == Fold(ALL, NewState(w.e.caps), Delivered(h.log))
  }

  lemma FetchKeepsScanOk(w: World, h: History, r: Reply)
    requires OkWorld(w) && Legal(w, FetchOp(r)) && ScanOk(w, h)
    ensures var (w', h') := AfterFetch(w, h, r); ScanOk(w', h')
  {
    FetchResyncsIff(w.e, r);
    var (w', h') := AfterFetch(w, h, r);
    assert w'.e.buf[..h.scanned] == w.e.buf[..h.scanned];
    assert w'.e.buf[0..h'.scanned] == w'.e.buf[..h'.scanned];
  }

  lemma SuffixOfFrame(s: seq<InputEvent>, lo: nat, hi: nat)
    requires lo + 1 < hi <= |s| && IsFrame(s[lo..hi])
    ensures IsFrame(s[lo + 1..hi])
  {
    var f := s[lo..hi];
    assert s[lo + 1..hi] == f[1..];
    assert f[1..][..|f| - 2] == f[..|f| - 1][1..];
  }

  lemma NextKeepsScanOk(w: World, h: History)
    requires OkWorld(w) && Legal(w, NextOp) && ScanOk(w, h)
    ensures var (w', h') := AfterNext(w, h); ScanOk(w', h')
  {
    var c := w.it.value;
    if c.sync.None? {
      if c.lo < c.hi {
        if c.lo + 1 < c.hi { SuffixOfFrame(w.e.buf, c.lo, c.hi); }
      } else if ScanFrom(w.e.buf, c.hi).CleanUpTo? {
        CleanKeepsScanOk(w, h);
      } else {
        StopKeepsScanOk(w, h);
      }
    }
  }

  lemma CleanKeepsScanOk(w: World, h: History)
    requires OkWorld(w) && Legal(w, NextOp) && ScanOk(w, h)
    requires w.it.value.sync.None? && w.it.value.lo == w.it.value.hi && ScanFrom(w.e.buf, w.it.value.hi).CleanUpTo?
    ensures var (w', h') := AfterNext(w, h); ScanOk(w', h')
  {
    var from, end := w.it.value.hi, ScanFrom(w.e.buf, w.it.value.hi).end;
    if from + 1 < end { SuffixOfFrame(w.e.buf, from, end); }
    assert w.e.buf[end..end] == [];
  }

  lemma StopKeepsScanOk(w: World, h: History)
    requires OkWorld(w) && Legal(w, NextOp) && ScanOk(w, h)
    requires w.it.value.sync.None? && w.it.value.lo == w.it.value.hi && !ScanFrom(w.e.buf, w.it.value.hi).CleanUpTo?
    ensures var (w', h') := AfterNext(w, h); ScanOk(w', h')
  {
    var buf, from := w.e.buf, w.it.value.hi;
    assert buf[from..|buf|] == buf[from..];
    assert NoReport(buf[|buf|..|buf|]);
  }

  lemma DropKeepsScanOk(w: World, h: History)
    requires OkWorld(w) && Legal(w, DropOp) && ScanOk(w, h)
    ensures var (w', h') := AfterDrop(w, h); ScanOk(w', h')
  {
    var c := w.it.value;
    var (w', h') := AfterDrop(w, h);
    assert w'.e.buf[..h'.scanned] == w.e.buf[c.consumed..h.scanned];
  }

  // Bookkeeping on logs

  lemma LogOne(log: seq<Entry>, entry: Entry)
    ensures KernelPart(log + [entry]) == KernelPart(log) + if entry.Kernel? || entry.LostKernel? then [entry.ev] else []
    ensures Delivered(log + [entry]) == Delivered(log) + if entry.Kernel? || entry.Synthetic? then [entry.ev] else []
  {
    assert (log + [entry])[..|log|] == log;
  }

  lemma LostSnoc(log: seq<Entry>, evs: seq<InputEvent>, fromKernel: bool)
    requires evs != []
    ensures var last := evs[|evs| - 1];
      log + Lost(evs, fromKernel) ==
        (log + Lost(evs[..|evs| - 1], fromKernel)) + [if fromKernel then LostKernel(last) else LostSynthetic(last)]
  {
  }

  lemma {:induction false} LogLost(log: seq<Entry>, evs: seq<InputEvent>, fromKernel: bool)
    ensures KernelPart(log + Lost(evs, fromKernel)) == if fromKernel then KernelPart(log) + evs else KernelPart(log)
    ensures Delivered(log + Lost(evs, fromKernel)) == Delivered(log)
    decreases |evs|
  {
    if evs == [] {
      assert log + Lost(evs, fromKernel) == log;
    } else {
      var init, last := evs[..|evs| - 1], evs[|evs| - 1];
      var entry := if fromKernel then LostKernel(last) else LostSynthetic(last);
      LogLost(log, init, fromKernel);
      LostSnoc(log, evs, fromKernel);
      LogOne(log + Lost(init, fromKernel), entry);
      SnocOntoLog(KernelPart(log), evs);
    }
  }

  lemma SnocOntoLog(kernel: seq<InputEvent>, evs: seq<InputEvent>)
    requires evs != []
    ensures (kernel + evs[..|evs| - 1]) + [evs[|evs| - 1]] == kernel + evs
  {
  }

  // Conservation, step by step

  lemma FetchKeepsConserved(w: World, h: History, r: Reply)
    requires OkWorld(w) && Legal(w, FetchOp(r)) && Conserved(w, h)
    ensures var (w', h') := AfterFetch(w, h, r); Conserved(w', h')
  {
    hide Clean, CountDamaged, KernelPart, AtBoundary, Fold, Resync;
    var (e', res) := Fetch(w.e, r);
    var chunk := if res.Success? then r.read.value else [];
    ChunkArrives(h.past, w.e.buf, chunk);
    assert e'.buf == w.e.buf + chunk;
  }

  lemma ChunkArrives(past: seq<InputEvent>, buf: seq<InputEvent>, chunk: seq<InputEvent>)
    ensures (past + buf) + chunk == past + (buf + chunk)
    ensures buf + [] == buf
    ensures past + (buf + chunk)[..0] == past + buf[..0]
    ensures Slice(buf + chunk, 0, 0) == Slice(buf, 0, 0)
  {
  }

  lemma NextKeepsConserved(w: World, h: History)
    requires OkWorld(w) && Legal(w, NextOp) && ScanOk(w, h) && Conserved(w, h)
    ensures var (w', h') := AfterNext(w, h); Conserved(w', h')
  {
    hide Clean, CountDamaged, Fold;
    var c := w.it.value;
    if c.sync.Some? {
      LogOne(h.log, Synthetic(Compensate(w.e.caps, w.e.prev, w.e.state, c.sync.value).0));
    } else if c.lo < c.hi {
      YieldKeepsConserved(w, h);
    } else if !ScanFrom(w.e.buf, c.hi).Unfinished? {
      FrameKeepsConserved(w, h);
    }
  }

  lemma YieldKeepsConserved(w: World, h: History)
    requires OkWorld(w) && Legal(w, NextOp) && Conserved(w, h)
    requires w.it.value.sync.None? && w.it.value.lo < w.it.value.hi
    ensures var (w', h') := AfterNext(w, h); Conserved(w', h')
  {
    hide Clean, CountDamaged, KernelPart, AtBoundary;
    var c := w.it.value;
    var (w', h') := AfterNext(w, h);
    assert w'.e == w.e && w'.it == Some(c.(lo := c.lo + 1)) && h' == Deliver(h, Kernel(w.e.buf[c.lo]));
    YieldKeepsConservedAt(h.past, w.e.buf, c.lo, c.hi, c.consumed, h.log, Answerable(w, h));
  }

  lemma FrameKeepsConserved(w: World, h: History)
    requires OkWorld(w) && Legal(w, NextOp) && Conserved(w, h)
    requires w.it.value.sync.None? && w.it.value.lo == w.it.value.hi && !ScanFrom(w.e.buf, w.it.value.hi).Unfinished?
    ensures var (w', h') := AfterNext(w, h); Conserved(w', h')
  {
    hide Clean, CountDamaged, KernelPart, AtBoundary, Fold, Update, Written;
    var c := w.it.value;
    FrameKeepsConservedAt(h.past, w.e.buf, c.hi, ScanFrom(w.e.buf, c.hi).end, h.log, h.resyncs + h.unanswered);
  }

  lemma YieldKeepsConservedAt(
      past: seq<InputEvent>, buf: seq<InputEvent>, lo: nat, hi: nat, consumed: nat, log: seq<Entry>, damaged: nat)
    requires ConservedAt(past, buf, lo, hi, consumed, log, damaged) && lo < hi <= |buf|
    ensures ConservedAt(past, buf, lo + 1, hi, consumed, log + [Kernel(buf[lo])], damaged)
  {
    LogOne(log, Kernel(buf[lo]));
    SplitHead(KernelPart(log), buf, lo, hi);
  }

  lemma FrameKeepsConservedAt(
      past: seq<InputEvent>, buf: seq<InputEvent>, from: nat, end: nat, log: seq<Entry>, damaged: nat)
    requires ConservedAt(past, buf, from, from, from, log, damaged)
    requires from < end <= |buf| && IsFrame(buf[from..end])
    ensures Damaged(buf[from..end]) ==> ConservedAt(past, buf, |buf|, |buf|, end, log, damaged + 1)
    ensures !Damaged(buf[from..end]) ==> ConservedAt(past, buf, from + 1, end, end, log + [Kernel(buf[from])], damaged)
  {
    UseUpFrame(past, buf, from, end);
    NothingToSplit(KernelPart(log), buf, from);
    if Damaged(buf[from..end]) {
      NothingToSplit(KernelPart(log), buf, |buf|);
    } else {
      LogOne(log, Kernel(buf[from]));
      SplitHead(KernelPart(log), buf, from, end);
    }
  }

  lemma NothingToSplit(kernel: seq<InputEvent>, buf: seq<InputEvent>, at: nat)
    ensures kernel + Slice(buf, at, at) == kernel == kernel + []
  {
  }

  /** Using up one more frame adds exactly its output and counts its damage. */
  lemma UseUpFrame(past: seq<InputEvent>, buf: seq<InputEvent>, from: nat, end: nat)
    requires from < end <= |buf| && AtBoundary(past + buf[..from]) && IsFrame(buf[from..end])
    ensures AtBoundary(past + buf[..end])
    ensures Clean(past + buf[..end]) == Clean(past + buf[..from]) + FrameOutput(buf[from..end])
    ensures CountDamaged(past + buf[..end]) ==
      CountDamaged(past + buf[..from]) + if Damaged(buf[from..end]) then 1 else 0
  {
    CutTwice(past, buf, from, end, end);
    AppendFrame(past + buf[..from], buf[from..end]);
  }

  lemma SplitHead(kernel: seq<InputEvent>, buf: seq<InputEvent>, lo: nat, hi: nat)
    requires lo < hi <= |buf|
    ensures (kernel + [buf[lo]]) + Slice(buf, lo + 1, hi) == kernel + Slice(buf, lo, hi) == kernel + buf[lo..hi]
  {
  }

  lemma DropKeepsConserved(w: World, h: History)
    requires OkWorld(w) && Legal(w, DropOp) && ScanOk(w, h) && Conserved(w, h)
    ensures var (w', h') := AfterDrop(w, h); Conserved(w', h')
  {
    hide Clean, CountDamaged, KernelPart, AtBoundary, Fold, Written, PendingFrame;
    var c, buf := w.it.value, w.e.buf;
    DroppedLog(w, h);
    MoveUsed(h.past, buf, c.consumed);
    NothingToSplit(KernelPart(AfterDrop(w, h).1.log), buf[c.consumed..], 0);
  }

  lemma DroppedLog(w: World, h: History)
    requires OkWorld(w) && Legal(w, DropOp)
    ensures var (w', h') := AfterDrop(w, h);
      && KernelPart(h'.log) == KernelPart(h.log) + Slice(w.e.buf, w.it.value.lo, w.it.value.hi)
      && Delivered(h'.log) == Delivered(h.log)
  {
    var c := w.it.value;
    var unsent := PendingFrame(w.e.caps, w.e.prev, w.e.state, c.sync);
    LogLost(h.log, unsent, false);
    LogLost(h.log + Lost(unsent, false), Slice(w.e.buf, c.lo, c.hi), true);
  }

  lemma MoveUsed(past: seq<InputEvent>, buf: seq<InputEvent>, n: nat)
    requires n <= |buf|
    ensures (past + buf[..n]) + buf[n..] == past + buf
    ensures (past + buf[..n]) + buf[n..][..0] == past + buf[..n]
  {
  }

  // The cache, step by step

  lemma FetchKeepsCached(w: World, h: History, r: Reply)
    requires OkWorld(w) && Legal(w, FetchOp(r)) && Cached(w, h)
    ensures var (w', h') := AfterFetch(w, h, r); Cached(w', h')
  {
    FetchKeepsSafe(w.e, r);
    var (w', h') := AfterFetch(w, h, r);
    assert w'.e.buf[..h.scanned] == w.e.buf[..h.scanned];
    assert [] + w'.e.buf[..0] == [];
  }

  /** Scanning on from the end of the last frame, over events the cache may already hold. */
  lemma RescanExtends(
      caps: Caps, origin: StateVal, trail: seq<InputEvent>, buf: seq<InputEvent>, from: nat, scanned: nat, end: nat)
    requires Fits(caps, origin) && from <= scanned <= end <= |buf|
    ensures Fold(TRACKED, Fold(TRACKED, origin, trail + buf[..scanned]), buf[from..end])
      == Fold(TRACKED, origin, trail + buf[..end])
  {
    var seen, again, more := trail + buf[..from], buf[from..scanned], buf[scanned..end];
    CutTwice(trail, buf, from, scanned, end);
    RefoldExtends(origin, seen, again, more, caps);
  }

  lemma CutTwice(trail: seq<InputEvent>, buf: seq<InputEvent>, from: nat, mid: nat, end: nat)
    requires from <= mid <= end <= |buf|
    ensures (trail + buf[..from]) + buf[from..mid] == trail + buf[..mid]
    ensures ((trail + buf[..from]) + buf[from..mid]) + buf[mid..end] == trail + buf[..end]
    ensures buf[from..mid] + buf[mid..end] == buf[from..end]
  {
  }

  lemma RefoldExtends(
      origin: StateVal, seen: seq<InputEvent>, again: seq<InputEvent>, more: seq<InputEvent>, caps: Caps)
    requires Fits(caps, origin)
    ensures Fold(TRACKED, Fold(TRACKED, origin, seen + again), again + more) ==
      Fold(TRACKED, origin, (seen + again) + more)
  {
    var s := Fold(TRACKED, origin, seen + again);
    FitsIsBounded(caps, origin);
    ReplayAbsorbed(TRACKED, origin, seen, again);
    FoldConcat(TRACKED, s, again, more);
    FoldConcat(TRACKED, origin, seen + again, more);
  }

  /** A frame ends past everything an unfinished scan has seen of it. */
  lemma FrameEndsPastScanned(buf: seq<InputEvent>, from: nat, scanned: nat, end: nat)
    requires from <= scanned <= |buf| && from < end <= |buf|
    requires NoReport(buf[from..scanned]) && IsFrame(buf[from..end])
    ensures scanned < end
  {
    assert forall i | from <= i < scanned :: !IsReport(buf[i]) by {
      assert forall i | from <= i < scanned :: buf[i] == buf[from..scanned][i - from];
    }
    assert IsReport(buf[end - 1]) by { assert buf[end - 1] == buf[from..end][end - 1 - from]; }
  }

  lemma NextKeepsCached(w: World, h: History)
    requires OkWorld(w) && Legal(w, NextOp) && ScanOk(w, h) && Cached(w, h)
    ensures var (w', h') := AfterNext(w, h); Cached(w', h')
  {
    var c, buf := w.it.value, w.e.buf;
    if c.sync.None? && c.lo == c.hi {
      if c.consumed < c.hi {
        assert Slice(buf, |buf|, |buf|) == [];
      } else {
        match ScanFrom(buf, c.hi)
        case Unfinished => RescanExtends(w.e.caps, h.origin, h.trail, buf, c.hi, h.scanned, |buf|);
        case DamagedUpTo(end) =>
          FrameEndsPastScanned(buf, c.hi, h.scanned, end);
          RescanExtends(w.e.caps, h.origin, h.trail, buf, c.hi, h.scanned, end);
        case CleanUpTo(end) =>
          FrameEndsPastScanned(buf, c.hi, h.scanned, end);
          RescanExtends(w.e.caps, h.origin, h.trail, buf, c.hi, h.scanned, end);
      }
    }
  }

  lemma DropKeepsCached(w: World, h: History)
    requires OkWorld(w) && Legal(w, DropOp) && ScanOk(w, h) && Cached(w, h)
    ensures var (w', h') := AfterDrop(w, h); Cached(w', h')
  {
    hide Fold, KernelPart, Written, PendingFrame;
    DrainTrail(h.trail, w.e.buf, w.it.value.consumed, h.scanned);
  }

  lemma DrainTrail(trail: seq<InputEvent>, buf: seq<InputEvent>, consumed: nat, scanned: nat)
    requires consumed <= scanned <= |buf|
    ensures (trail + buf[..consumed]) + buf[consumed..][..scanned - consumed] == trail + buf[..scanned]
  {
  }

  // The consumer's view is the fold of what it received

  lemma DeliverKeepsViewed(caps: Caps, h: History, entry: Entry)
    requires Fits(caps, h.view) && h.view == Fold(ALL, NewState(caps), Delivered(h.log))
    requires entry.Kernel? || entry.Synthetic?
    ensures var h' := Deliver(h, entry);
      Fits(caps, h'.view) && h'.view == Fold(ALL, NewState(caps), Delivered(h'.log))
  {
    LogOne(h.log, entry);
    FoldConcat(ALL, NewState(caps), Delivered(h.log), [entry.ev]);
    FoldOne(ALL, h.view, entry.ev);
    UpdateKeepsShape(ALL, h.view, entry.ev);
    var v := Update(ALL, h.view, entry.ev);
    forall cls: Class ensures Length(v, cls) == Length(h.view, cls) {}
  }

  lemma StepKeepsViewed(w: World, h: History, op: Op)
    requires OkWorld(w) && Legal(w, op) && Viewed(w, h)
    ensures var (w', h') := After(w, h, op); Viewed(w', h')
  {
    match op
    case FetchOp(r) => FetchKeepsSafe(w.e, r);
    case NextOp =>
      var c := w.it.value;
      NextKeepsOk(w.e, c);
      var out := NextEvent(w.e, c).2;
      if c.sync.Some? {
        DeliverKeepsViewed(w.e.caps, h, Synthetic(out.value));
      } else if out.Some? {
        if c.lo < c.hi {
          DeliverKeepsViewed(w.e.caps, h, Kernel(out.value));
        } else {
          var end := ScanFrom(w.e.buf, c.hi).end;
          DeliverKeepsViewed(w.e.caps, h.(scanned := end, stale := h.stale - Written(w.e.buf[c.hi..end])),
            Kernel(out.value));
        }
      }
    case DropOp =>
      DroppedLog(w, h);
  }

  lemma RunFirst(w: World, h: History, op: Op, ops: seq<Op>)
    requires OkWorld(w) && Legal(w, op)
    requires var (w', h') := After(w, h, op); LegalRun(w', h', ops)
    ensures LegalRun(w, h, [op] + ops)
    ensures var (w', h') := After(w, h, op); Run(w, h, [op] + ops) == Run(w', h', ops)
  {
    assert ([op] + ops)[1..] == ops;
  }

  // Every run

  ghost predicate Inv(w: World, h: History) {
    OkWorld(w) && ScanOk(w, h) && Conserved(w, h) && Cached(w, h) && Viewed(w, h)
  }

  lemma StepKeepsInv(w: World, h: History, op: Op)
    requires Inv(w, h) && Legal(w, op)
    ensures var (w', h') := After(w, h, op); Inv(w', h')
  {
    StepKeepsViewed(w, h, op);
    match op
    case FetchOp(r) =>
      FetchKeepsScanOk(w, h, r);
      FetchKeepsConserved(w, h, r);
      FetchKeepsCached(w, h, r);
    case NextOp =>
      NextKeepsScanOk(w, h);
      NextKeepsConserved(w, h);
      NextKeepsCached(w, h);
    case DropOp =>
      DropKeepsScanOk(w, h);
      DropKeepsConserved(w, h);
      DropKeepsCached(w, h);
  }

  lemma {:induction false} RunKeepsInv(w: World, h: History, ops: seq<Op>)
    requires Inv(w, h) && LegalRun(w, h, ops)
    ensures var (w', h') := Run(w, h, ops); Inv(w', h')
    decreases |ops|
  {
    if ops == [] {
    } else {
      StepKeepsInv(w, h, ops[0]);
      var (w', h') := After(w, h, ops[0]);
      RunKeepsInv(w', h', ops[1..]);
    }
  }

  lemma OpenedInv(caps: Caps)
    ensures Inv(Opened(caps), NothingYet(caps))
  {
    NoReportOutputsNothing([]);
  }

  lemma EveryRunIsSafe(caps: Caps, ops: seq<Op>)
    requires LegalRun(Opened(caps), NothingYet(caps), ops)
    ensures var (w, h) := Run(Opened(caps), NothingYet(caps), ops); Inv(w, h)
  {
    OpenedInv(caps);
    RunKeepsInv(Opened(caps), NothingYet(caps), ops);
  }

  // The kernel events still to come from what has been read.
  function Owed(w: World): seq<InputEvent> {
    var c := Position(w);
    Slice(w.e.buf, c.lo, c.hi) + Clean(Slice(w.e.buf, c.consumed, |w.e.buf|))
  }

  /**
   * Delivery over every run, iterators dropped anywhere: the kernel events delivered, those
   * discarded by drops, and those still owed are together the undamaged frames of everything
   * read, each event once and in order. Between iterators the buffer starts at a frame
   * boundary. Every damaged frame used up has been answered by a synthetic frame, or its
   * fetch failed, or the answer is still due.
   */
  lemma DeliveryOverAnyRun(caps: Caps, ops: seq<Op>)
    requires LegalRun(Opened(caps), NothingYet(caps), ops)
    ensures var (w, h) := Run(Opened(caps), NothingYet(caps), ops);
      && h.read == h.past + w.e.buf
      && KernelPart(h.log) + Owed(w) == Clean(h.read)
      && (w.it.None? ==> AtBoundary(h.past))
      && CountDamaged(h.past + w.e.buf[..Position(w).consumed]) ==
           h.resyncs + h.unanswered + (if w.e.dropped then 1 else 0)
      && h.view == Fold(ALL, NewState(w.e.caps), Delivered(h.log))
  {
    EveryRunIsSafe(caps, ops);
    var (w, h) := Run(Opened(caps), NothingYet(caps), ops);
    var c := Position(w);
    OwedIsTheRest(h.past, w.e.buf, c.consumed, KernelPart(h.log), Slice(w.e.buf, c.lo, c.hi));
  }

  lemma OwedIsTheRest(
      past: seq<InputEvent>, buf: seq<InputEvent>, n: nat, kernel: seq<InputEvent>, current: seq<InputEvent>)
    requires n <= |buf| && AtBoundary(past + buf[..n]) && kernel + current == Clean(past + buf[..n])
    ensures kernel + (current + Clean(Slice(buf, n, |buf|))) == Clean(past + buf)
    ensures n == 0 ==> AtBoundary(past)
  {
    MoveUsed(past, buf, n);
    SliceRest(buf, n);
    AppendAtBoundary(past + buf[..n], buf[n..]);
    Associative(kernel, current, Clean(buf[n..]));
    assert past + buf[..0] == past;
  }

  /**
   * Bounded loss: dropping an iterator discards at most the rest of the synthetic frame or at
   * most the rest of the one frame being delivered, never both, and nothing at all where the
   * next call would return None.
   */
  lemma DropLosesAtMostOneFrame(w: World, h: History)
    requires OkWorld(w) && ScanOk(w, h) && Legal(w, DropOp)
    ensures var c := w.it.value;
      var unsent := PendingFrame(w.e.caps, w.e.prev, w.e.state, c.sync); var rest := Slice(w.e.buf, c.lo, c.hi);
      && AfterDrop(w, h).1.log == h.log + Lost(unsent, false) + Lost(rest, true)
      && (rest == [] || (IsFrame(rest) && unsent == []))
      && (NextEvent(w.e, c).2.None? ==> rest == [] && unsent == [])
  {
  }

  /** What is still owed shrinks by what was discarded and by nothing else. */
  lemma DropOwesTheRest(w: World, h: History)
    requires OkWorld(w) && Legal(w, DropOp)
    ensures Owed(w) == Slice(w.e.buf, w.it.value.lo, w.it.value.hi) + Owed(AfterDrop(w, h).0)
  {
    var c := w.it.value;
    DropOwes(w.e.buf, c.consumed);
    assert AfterDrop(w, h).0 == World(DropIterator(w.e, c), None);
  }

  lemma DropOwes(buf: seq<InputEvent>, n: nat)
    requires n <= |buf|
    ensures var rest := buf[n..]; Clean(Slice(buf, n, |buf|)) == Slice(rest, 0, 0) + Clean(Slice(rest, 0, |rest|))
  {
    SliceRest(buf, n);
    EmptyUnit(Clean(buf[n..]));
  }

  lemma SliceRest(buf: seq<InputEvent>, n: nat)
    requires n <= |buf|
    ensures Slice(buf, n, |buf|) == buf[n..] == Slice(buf[n..], 0, |buf[n..]|) && Slice(buf[n..], 0, 0) == []
  {
  }

  /**
   * Frame-atomic cache: when an event of a kernel frame is yielded the cached state already
   * is the last resynchronised (or initial) state folded through the end of that frame, and
   * it does not move while the rest of the frame is delivered.
   */
  lemma YieldReflectsWholeFrame(w: World, h: History)
    requires OkWorld(w) && ScanOk(w, h) && Cached(w, h)
    requires Legal(w, NextOp) && w.it.value.sync.None? && NextEvent(w.e, w.it.value).2.Some?
    ensures var (w', h') := AfterNext(w, h); var c := w'.it.value;
      && c.lo <= c.hi <= |w'.e.buf| && IsReport(w'.e.buf[c.hi - 1])
      && NextEvent(w.e, w.it.value).2 == Some(w'.e.buf[c.lo - 1])
      && w'.e.state == Fold(TRACKED, h.origin, h.trail + w'.e.buf[..c.hi])
      && (w.it.value.lo < w.it.value.hi ==> w'.e.state == w.e.state)
  {
    NextKeepsCached(w, h);
    var c := w.it.value;
    if c.lo < c.hi {
      FrameEndsInReport(w.e.buf, c.lo, c.hi);
    } else {
      FrameEndsInReport(w.e.buf, c.hi, ScanFrom(w.e.buf, c.hi).end);
    }
  }

  lemma FrameEndsInReport(buf: seq<InputEvent>, lo: nat, hi: nat)
    requires lo < hi <= |buf| && IsFrame(buf[lo..hi])
    ensures IsReport(buf[hi - 1])
  {
    assert buf[hi - 1] == buf[lo..hi][hi - lo - 1];
  }

  /**
   * Replay absorption: while no SYN_DROPPED has been read, the cached state is one fold of
   * everything scanned since the device was opened, however often unfinished frames were
   * scanned again and wherever iterators were dropped; and of everything read, once `next`
   * has returned None.
   */
  lemma UndamagedCacheIsOneFold(caps: Caps, ops: seq<Op>)
    requires LegalRun(Opened(caps), NothingYet(caps), ops)
    requires !Damaged(Run(Opened(caps), NothingYet(caps), ops).1.read)
    ensures var (w, h) := Run(Opened(caps), NothingYet(caps), ops);
      && h.scanned <= |w.e.buf|
      && w.e.state == Fold(TRACKED, NewState(w.e.caps), h.past + w.e.buf[..h.scanned])
      && (w.it.Some? && NextEvent(w.e, w.it.value).2.None? ==>
            AfterNext(w, h).0.e.state == Fold(TRACKED, NewState(w.e.caps), h.read))
  {
    EveryRunIsSafe(caps, ops);
    var (w, h) := Run(Opened(caps), NothingYet(caps), ops);
    NoDamageNoResync(w, h);
    if w.it.Some? && NextEvent(w.e, w.it.value).2.None? {
      var c := w.it.value;
      NextKeepsCached(w, h);
      StopScansAll(w, h);
      assert w.e.buf[..|w.e.buf|] == w.e.buf;
    }
  }

  lemma NoDamageNoResync(w: World, h: History)
    requires Conserved(w, h) && !Damaged(h.read)
    ensures h.resyncs == 0 && h.unanswered == 0 && !w.e.dropped
  {
    UndamagedPrefix(h.past, w.e.buf, Position(w).consumed);
    UndamagedCounts(h.past + w.e.buf[..Position(w).consumed]);
  }

  lemma UndamagedPrefix(past: seq<InputEvent>, buf: seq<InputEvent>, n: nat)
    requires n <= |buf| && !Damaged(past + buf)
    ensures !Damaged(past + buf[..n]) && !Damaged(buf[n..])
  {
    MoveUsed(past, buf, n);
    DamagedConcat(past + buf[..n], buf[n..]);
  }

  lemma StopScansAll(w: World, h: History)
    requires OkWorld(w) && ScanOk(w, h) && Conserved(w, h) && !Damaged(h.read) && Legal(w, NextOp)
      && NextEvent(w.e, w.it.value).2.None?
    ensures var (w', h') := AfterNext(w, h); w'.e.buf == w.e.buf && h' == h.(scanned := |w.e.buf|)
  {
    NoDamageNoResync(w, h);
    NoDamagedScan(h.past, w.e.buf, w.it.value.hi);
  }

  lemma NoDamagedScan(past: seq<InputEvent>, buf: seq<InputEvent>, from: nat)
    requires from <= |buf| && !Damaged(past + buf)
    ensures !ScanFrom(buf, from).DamagedUpTo?
  {
    UndamagedPrefix(past, buf, from);
    forall end | from <= end <= |buf| ensures !Damaged(buf[from..end]) {
      DamagedConcat(buf[from..end], buf[end..]);
      assert buf[from..end] + buf[end..] == buf[from..];
    }
  }
}
