/**
 * What a consumer that folds every delivered event knows, compared with the device's own
 * cache, over every run: the two agree outside an explicit set of stale slots.
 */
module Consumer {
  import opened Compensation
  import opened DeviceState
  import opened Engine
  import opened Events
  import opened Frames
  import opened Runs
  import opened Wrappers

  // Events the cache already reflects and the consumer has not received: the rest of the
  // synthetic frame, or the rest of the current frame and the scanned unfinished one.
  function Ahead(w: World, h: History): seq<InputEvent> {
    var c := Position(w);
    if c.sync.Some? then PendingFrame(w.e.caps, w.e.prev, w.e.state, c.sync)
    else Slice(w.e.buf, c.lo, h.scanned)
  }

  // A slot the promise is about.
  predicate Followed(caps: Caps, slot: Slot) {
    slot.cls in TRACKED && caps.Supports(slot)
  }

  predicate AgreesAt(w: World, h: History, slot: Slot) {
    OrElse(LastWrite(Ahead(w, h), slot), Get(h.view, slot)) == Get(w.e.state, slot)
  }

  ghost predicate Agreed(w: World, h: History) {
    forall slot: Slot | Followed(w.e.caps, slot) && slot !in h.stale :: AgreesAt(w, h, slot)
  }

  /** Agreement in words of folds: consumer view plus what is still owed equals the cache. */
  lemma AgreesAtIsFold(w: World, h: History, slot: Slot)
    requires Inv(w, h) && Followed(w.e.caps, slot)
    ensures AgreesAt(w, h, slot) <==> Get(Fold(ALL, h.view, Ahead(w, h)), slot) == Get(w.e.state, slot)
  {
    InShape(w.e.caps, h.view, slot);
    GetFold(ALL, h.view, Ahead(w, h), slot);
  }

  lemma InShape(caps: Caps, s: StateVal, slot: Slot)
    requires Fits(caps, s) && caps.Supports(slot)
    ensures Length(s, slot.cls).Some? && slot.code < Length(s, slot.cls).value
  {
    assert Length(s, slot.cls) == Some(|caps.Supported(slot.cls).value|);
  }

  // The part of the invariant agreement needs.
  ghost predicate Ready(w: World, h: History) {
    OkWorld(w) && ScanOk(w, h) && Fits(w.e.caps, h.view)
  }

  lemma FetchKeepsAgreement(w: World, h: History, r: Reply, slot: Slot)
    requires Ready(w, h) && Legal(w, FetchOp(r)) && Followed(w.e.caps, slot)
    requires slot !in h.stale ==> AgreesAt(w, h, slot)
    ensures var (w', h') := AfterFetch(w, h, r); slot !in h'.stale ==> AgreesAt(w', h', slot)
  {
    FetchKeepsSafe(w.e, r);
    var (w', h') := AfterFetch(w, h, r);
    if !w.e.dropped {
      assert Slice(w'.e.buf, 0, h.scanned) == Slice(w.e.buf, 0, h.scanned);
    } else if w'.it.Some? {
      assert Slice(w.e.buf, 0, 0) == [];
      PendingLastWrite(w.e.caps, w'.e.prev, w'.e.state, w'.it.value.sync.value, slot);
    }
  }

  // Delivering the head of what is owed moves it from the one side to the other.
  lemma DeliverHead(caps: Caps, view: StateVal, ev: InputEvent, rest: seq<InputEvent>, slot: Slot)
    requires Fits(caps, view) && Followed(caps, slot)
    ensures OrElse(LastWrite([ev] + rest, slot), Get(view, slot)) ==
      OrElse(LastWrite(rest, slot), Get(Update(ALL, view, ev), slot))
  {
    LastWriteConcat([ev], rest, slot);
    assert [ev][..0] == [];
    InShape(caps, view, slot);
    GetUpdate(ALL, view, ev, slot);
  }

  lemma EmitKeepsAgreement(w: World, h: History, slot: Slot)
    requires Ready(w, h) && Legal(w, NextOp) && Followed(w.e.caps, slot) && w.it.value.sync.Some?
    requires AgreesAt(w, h, slot)
    ensures var (w', h') := AfterNext(w, h); AgreesAt(w', h', slot)
  {
    var (w', h') := AfterNext(w, h);
    var (ev, rest) := Compensate(w.e.caps, w.e.prev, w.e.state, w.it.value.sync.value);
    PendingAfterEmit(w.e.caps, w.e.prev, w.e.state, w.it.value.sync.value);
    if rest.None? { assert Slice(w.e.buf, 0, 0) == []; }
    DeliverHead(w.e.caps, h.view, ev, Ahead(w', h'), slot);
  }

  lemma YieldKeepsAgreement(w: World, h: History, slot: Slot)
    requires Ready(w, h) && Legal(w, NextOp) && Followed(w.e.caps, slot)
    requires w.it.value.sync.None? && w.it.value.lo < w.it.value.hi
    requires AgreesAt(w, h, slot)
    ensures var (w', h') := AfterNext(w, h); AgreesAt(w', h', slot)
  {
    hide LastWrite, Get, Fold, Update;
    var c, buf := w.it.value, w.e.buf;
    HeadOfSlice(buf, c.lo, c.hi);
    DeliverHead(w.e.caps, h.view, buf[c.lo], Slice(buf, c.lo + 1, c.hi), slot);
  }

  lemma HeadOfSlice(buf: seq<InputEvent>, lo: nat, hi: nat)
    requires lo < hi <= |buf|
    ensures Slice(buf, lo, hi) == buf[lo..hi] == [buf[lo]] + Slice(buf, lo + 1, hi)
  {
  }

  lemma UnfinishedKeepsAgreement(w: World, h: History, slot: Slot)
    requires Ready(w, h) && Legal(w, NextOp) && Followed(w.e.caps, slot)
    requires w.it.value.sync.None? && w.it.value.lo == w.it.value.hi && ScanFrom(w.e.buf, w.it.value.hi).Unfinished?
    requires AgreesAt(w, h, slot)
    ensures var (w', h') := AfterNext(w, h); AgreesAt(w', h', slot)
  {
    var c, buf := w.it.value, w.e.buf;
    if c.consumed < c.hi {
      assert Slice(buf, |buf|, |buf|) == [];
    } else {
      InShape(w.e.caps, w.e.state, slot);
      GetFold(TRACKED, w.e.state, Slice(buf, c.hi, |buf|), slot);
      CutAhead(buf, c.hi, h.scanned, |buf|);
      LastWriteConcat(Slice(buf, c.hi, h.scanned), Slice(buf, h.scanned, |buf|), slot);
    }
  }

  lemma DamagedKeepsAgreement(w: World, h: History, slot: Slot)
    requires Ready(w, h) && Legal(w, NextOp) && Followed(w.e.caps, slot)
    requires w.it.value.sync.None? && w.it.value.lo == w.it.value.hi && ScanFrom(w.e.buf, w.it.value.hi).DamagedUpTo?
    requires slot !in h.stale ==> AgreesAt(w, h, slot)
    ensures var (w', h') := AfterNext(w, h); slot !in h'.stale ==> AgreesAt(w', h', slot)
  {
    var c, buf := w.it.value, w.e.buf;
    var end := ScanFrom(buf, c.hi).end;
    assert c.consumed == c.hi;
    ScannedPrefix(buf, c.hi, h.scanned, end, slot);
    InShape(w.e.caps, w.e.state, slot);
    GetFold(TRACKED, w.e.state, buf[c.hi..end], slot);
    assert Slice(buf, |buf|, end) == [];
  }

  lemma CleanKeepsAgreement(w: World, h: History, slot: Slot)
    requires Ready(w, h) && Legal(w, NextOp) && Followed(w.e.caps, slot)
    requires w.it.value.sync.None? && w.it.value.lo == w.it.value.hi && ScanFrom(w.e.buf, w.it.value.hi).CleanUpTo?
    requires slot !in h.stale ==> AgreesAt(w, h, slot)
    ensures var (w', h') := AfterNext(w, h); slot !in h'.stale ==> AgreesAt(w', h', slot)
  {
    var c, buf := w.it.value, w.e.buf;
    var end := ScanFrom(buf, c.hi).end;
    CleanStep(w, h);
    ScannedPrefix(buf, c.hi, h.scanned, end, slot);
    FrameAgrees(w.e.caps, w.e.state, h.view, buf, c.hi, end, slot);
  }

  lemma CleanStep(w: World, h: History)
    requires OkWorld(w) && Legal(w, NextOp)
    requires w.it.value.sync.None? && w.it.value.lo == w.it.value.hi && ScanFrom(w.e.buf, w.it.value.hi).CleanUpTo?
    ensures var from, end := w.it.value.hi, ScanFrom(w.e.buf, w.it.value.hi).end; var (w', h') := AfterNext(w, h);
      && w'.e.state == Fold(TRACKED, w.e.state, w.e.buf[from..end])
      && Ahead(w, h) == Slice(w.e.buf, from, h.scanned)
      && Ahead(w', h') == Slice(w.e.buf, from + 1, end)
      && h'.view == Update(ALL, h.view, w.e.buf[from])
      && h'.stale == h.stale - Written(w.e.buf[from..end])
  {
  }

  // A clean frame brings cache and consumer to the same value of every slot it writes.
  lemma FrameAgrees(caps: Caps, s: StateVal, view: StateVal, buf: seq<InputEvent>, lo: nat, hi: nat, slot: Slot)
    requires Fits(caps, s) && Fits(caps, view) && Followed(caps, slot) && lo < hi <= |buf|
    ensures OrElse(LastWrite(Slice(buf, lo + 1, hi), slot), Get(Update(ALL, view, buf[lo]), slot))
      == OrElse(LastWrite(buf[lo..hi], slot), Get(view, slot))
    ensures Get(Fold(TRACKED, s, buf[lo..hi]), slot) == OrElse(LastWrite(buf[lo..hi], slot), Get(s, slot))
  {
    HeadOfSlice(buf, lo, hi);
    DeliverHead(caps, view, buf[lo], Slice(buf, lo + 1, hi), slot);
    InShape(caps, s, slot);
    GetFold(TRACKED, s, buf[lo..hi], slot);
  }

  lemma NextKeepsAgreement(w: World, h: History, slot: Slot)
    requires Ready(w, h) && Legal(w, NextOp) && Followed(w.e.caps, slot)
    requires slot !in h.stale ==> AgreesAt(w, h, slot)
    ensures var (w', h') := AfterNext(w, h); slot !in h'.stale ==> AgreesAt(w', h', slot)
  {
    var c := w.it.value;
    if c.sync.Some? {
      if slot !in h.stale { EmitKeepsAgreement(w, h, slot); }
    } else if c.lo < c.hi {
      if slot !in h.stale { YieldKeepsAgreement(w, h, slot); }
    } else {
      match ScanFrom(w.e.buf, c.hi)
      case Unfinished => if slot !in h.stale { UnfinishedKeepsAgreement(w, h, slot); }
      case DamagedUpTo(_) => DamagedKeepsAgreement(w, h, slot);
      case CleanUpTo(_) => CleanKeepsAgreement(w, h, slot);
    }
  }

  // An unfinished scan has seen no write its frame does not hold.
  lemma ScannedPrefix(buf: seq<InputEvent>, from: nat, scanned: nat, end: nat, slot: Slot)
    requires from <= scanned <= |buf| && from < end <= |buf|
    requires NoReport(buf[from..scanned]) && IsFrame(buf[from..end])
    ensures LastWrite(buf[from..end], slot).None? ==> LastWrite(Slice(buf, from, scanned), slot).None?
  {
    FrameEndsPastScanned(buf, from, scanned, end);
    assert buf[from..end] == Slice(buf, from, scanned) + buf[scanned..end];
    LastWriteConcat(Slice(buf, from, scanned), buf[scanned..end], slot);
  }

  lemma DropKeepsAgreement(w: World, h: History, slot: Slot)
    requires Ready(w, h) && Legal(w, DropOp) && Followed(w.e.caps, slot)
    requires slot !in h.stale ==> AgreesAt(w, h, slot)
    ensures var (w', h') := AfterDrop(w, h); slot !in h'.stale ==> AgreesAt(w', h', slot)
  {
    var c, buf := w.it.value, w.e.buf;
    if c.sync.Some? || c.consumed < c.hi {
      assert Slice(buf[c.consumed..], 0, 0) == [];
      assert c.sync.None? ==> Slice(buf, c.lo, h.scanned) == [];
    } else {
      DropMidFrame(w, h, slot);
    }
  }

  lemma DropMidFrame(w: World, h: History, slot: Slot)
    requires Ready(w, h) && Legal(w, DropOp) && w.it.value.sync.None? && w.it.value.consumed == w.it.value.hi
    ensures var c := w.it.value; var (w', h') := AfterDrop(w, h);
      && h'.view == h.view && w'.e.state == w.e.state && h.stale <= h'.stale
      && (slot !in h'.stale ==> LastWrite(Ahead(w', h'), slot) == LastWrite(Ahead(w, h), slot))
  {
    var c := w.it.value;
    CutAhead(w.e.buf, c.lo, c.hi, h.scanned);
    LastWriteConcat(Slice(w.e.buf, c.lo, c.hi), Slice(w.e.buf, c.hi, h.scanned), slot);
  }

  lemma CutAhead(buf: seq<InputEvent>, lo: nat, hi: nat, scanned: nat)
    requires lo <= hi <= scanned <= |buf|
    ensures Slice(buf, lo, scanned) == Slice(buf, lo, hi) + Slice(buf, hi, scanned)
    ensures Slice(buf[hi..], 0, scanned - hi) == Slice(buf, hi, scanned)
  {
  }

  lemma StepKeepsAgreed(w: World, h: History, op: Op)
    requires Inv(w, h) && Legal(w, op) && Agreed(w, h)
    ensures var (w', h') := After(w, h, op); Agreed(w', h')
  {
    var (w', h') := After(w, h, op);
    if op.NextOp? { NextKeepsOk(w.e, w.it.value); }
    if op.FetchOp? { FetchKeepsSafe(w.e, op.reply); }
    assert w'.e.caps == w.e.caps;
    forall slot: Slot | Followed(w.e.caps, slot) && slot !in h'.stale ensures AgreesAt(w', h', slot) {
      match op
      case FetchOp(r) => FetchKeepsAgreement(w, h, r, slot);
      case DropOp => DropKeepsAgreement(w, h, slot);
      case NextOp => NextKeepsAgreement(w, h, slot);
    }
  }

  lemma {:induction false} RunKeepsAgreed(w: World, h: History, ops: seq<Op>)
    requires Inv(w, h) && Agreed(w, h) && LegalRun(w, h, ops)
    ensures var (w', h') := Run(w, h, ops); Inv(w', h') && Agreed(w', h')
    decreases |ops|
  {
    if ops == [] {
    } else {
      StepKeepsInv(w, h, ops[0]);
      StepKeepsAgreed(w, h, ops[0]);
      var (w', h') := After(w, h, ops[0]);
      RunKeepsAgreed(w', h', ops[1..]);
    }
  }

  lemma OpenedAgreed(caps: Caps)
    ensures Agreed(Opened(caps), NothingYet(caps))
  {
  }

  // Driving a synthetic frame

  function Nexts(k: nat): seq<Op> {
    seq(k, _ => NextOp)
  }

  // What delivering `frame`, a stretch of the synthetic frame, changes and what it does not.
  ghost predicate Emitted(w: World, h: History, w': World, h': History, frame: seq<InputEvent>) {
    && w.it.Some? && w'.it.Some? && w'.it.value == w.it.value.(sync := w'.it.value.sync)
    && w'.e == w.e.(prev := w'.e.prev)
    && Delivered(h'.log) == Delivered(h.log) + frame && KernelPart(h'.log) == KernelPart(h.log)
    && h'.stale == h.stale && h'.scanned == h.scanned && h'.read == h.read
  }

  lemma EmitOne(w: World, h: History) returns (w': World, h': History)
    requires OkWorld(w) && w.it.Some? && w.it.value.sync.Some?
    ensures OkWorld(w') && (w', h') == After(w, h, NextOp)
    ensures var frame := PendingFrame(w.e.caps, w.e.prev, w.e.state, w.it.value.sync);
      && frame != [] && Emitted(w, h, w', h', [frame[0]])
      && PendingFrame(w'.e.caps, w'.e.prev, w'.e.state, w'.it.value.sync) == frame[1..]
  {
    PendingAfterEmit(w.e.caps, w.e.prev, w.e.state, w.it.value.sync.value);
    LogOne(h.log, Synthetic(Compensate(w.e.caps, w.e.prev, w.e.state, w.it.value.sync.value).0));
    w', h' := After(w, h, NextOp).0, After(w, h, NextOp).1;
  }

  lemma RunNexts(w: World, h: History, w1: World, h1: History, k: nat)
    requires OkWorld(w) && w.it.Some? && OkWorld(w1) && (w1, h1) == After(w, h, NextOp)
    requires LegalRun(w1, h1, Nexts(k))
    ensures LegalRun(w, h, Nexts(k + 1)) && Run(w, h, Nexts(k + 1)) == Run(w1, h1, Nexts(k))
  {
    RunFirst(w, h, NextOp, Nexts(k));
    assert Nexts(k + 1) == [NextOp] + Nexts(k);
  }

  lemma EmittedThen(w: World, h: History, w1: World, h1: History, w2: World, h2: History, frame: seq<InputEvent>)
    requires frame != [] && Emitted(w, h, w1, h1, [frame[0]]) && Emitted(w1, h1, w2, h2, frame[1..])
    ensures Emitted(w, h, w2, h2, frame)
  {
    HeadThenRest(Delivered(h.log), frame);
  }

  lemma HeadThenRest(before: seq<InputEvent>, frame: seq<InputEvent>)
    requires frame != []
    ensures (before + [frame[0]]) + frame[1..] == before + frame
  {
  }

  /** Exactly |PendingFrame| calls of `next` deliver the synthetic frame and nothing else. */
  lemma {:induction false} DriveSynthetic(w: World, h: History, frame: seq<InputEvent>)
    requires OkWorld(w) && w.it.Some?
    requires frame == PendingFrame(w.e.caps, w.e.prev, w.e.state, w.it.value.sync)
    ensures LegalRun(w, h, Nexts(|frame|))
    ensures var (w', h') := Run(w, h, Nexts(|frame|)); Emitted(w, h, w', h', frame) && w'.it.value.sync.None?
    decreases |frame|
  {
    if w.it.value.sync.None? {
      assert Nexts(0) == [];
    } else {
      var w1, h1 := EmitOne(w, h);
      DriveSynthetic(w1, h1, frame[1..]);
      RunNexts(w, h, w1, h1, |frame| - 1);
      var (w2, h2) := Run(w1, h1, Nexts(|frame| - 1));
      EmittedThen(w, h, w1, h1, w2, h2, frame);
    }
  }

  // What stale slots come down to

  // Fetches that answer a damaged frame succeed, and iterators are dropped only with nothing
  // left to deliver.
  predicate Careful(w: World, op: Op)
    requires Legal(w, op) && OkWorld(w)
  {
    match op
    case FetchOp(r) => w.e.dropped ==> r.IoctlsSucceed(w.e.caps) && r.read.Success?
    case NextOp => true
    case DropOp => w.it.value.sync.None? && w.it.value.lo == w.it.value.hi
  }

  ghost predicate CarefulRun(w: World, h: History, ops: seq<Op>)
    requires OkWorld(w) && LegalRun(w, h, ops)
    decreases |ops|
  {
    ops == [] ||
    (Careful(w, ops[0]) && var (w', h') := After(w, h, ops[0]); CarefulRun(w', h', ops[1..]))
  }

  // Whether a damaged frame of the stream writes a slot.
  predicate Suppressed(stream: seq<InputEvent>, slot: Slot) {
    LastWrite(DamagedPart(stream), slot).Some?
  }

  // The part of what has been read that is used up.
  function Used(w: World, h: History): seq<InputEvent>
    requires OkWorld(w)
  {
    h.past + w.e.buf[..Position(w).consumed]
  }

  ghost predicate StaleOnlySuppressed(w: World, h: History)
    requires OkWorld(w)
  {
    forall slot: Slot | slot in h.stale :: Suppressed(Used(w, h), slot)
  }

  lemma CarefulFetch(w: World, h: History, r: Reply)
    requires Inv(w, h) && Legal(w, FetchOp(r)) && Careful(w, FetchOp(r)) && StaleOnlySuppressed(w, h)
    ensures var (w', h') := AfterFetch(w, h, r); StaleOnlySuppressed(w', h')
  {
    FetchResyncsIff(w.e, r);
    var (w', h') := AfterFetch(w, h, r);
    assert Used(w', h') == Used(w, h);
    assert h'.stale <= h.stale;
  }

  lemma CarefulDrop(w: World, h: History)
    requires Inv(w, h) && Legal(w, DropOp) && Careful(w, DropOp) && StaleOnlySuppressed(w, h)
    ensures var (w', h') := AfterDrop(w, h); StaleOnlySuppressed(w', h')
  {
    var (w', h') := AfterDrop(w, h);
    MoveUsed(h.past, w.e.buf, w.it.value.consumed);
    assert Used(w', h') == Used(w, h);
    assert Slice(w.e.buf, w.it.value.lo, w.it.value.hi) == [];
    assert forall slot: Slot :: slot !in Written([]);
    assert forall slot: Slot | slot in h'.stale :: slot in h.stale;
  }

  // Using up one more frame can only suppress more, and suppresses what a damaged one writes.
  lemma SuppressFrame(past: seq<InputEvent>, buf: seq<InputEvent>, from: nat, end: nat, slot: Slot)
    requires from < end <= |buf| && AtBoundary(past + buf[..from]) && IsFrame(buf[from..end])
    ensures Suppressed(past + buf[..from], slot) ==> Suppressed(past + buf[..end], slot)
    ensures Damaged(buf[from..end]) && LastWrite(buf[from..end], slot).Some? ==> Suppressed(past + buf[..end], slot)
  {
    var used, frame := past + buf[..from], buf[from..end];
    CutTwice(past, buf, from, end, end);
    DamagedPartConcat(used, frame);
    DamagedPartOfFrame(frame);
    LastWriteConcat(DamagedPart(used), DamagedPart(frame), slot);
  }

  lemma CarefulNext(w: World, h: History)
    requires Inv(w, h) && Legal(w, NextOp) && StaleOnlySuppressed(w, h)
    ensures var (w', h') := AfterNext(w, h); StaleOnlySuppressed(w', h')
  {
    NextKeepsOk(w.e, w.it.value);
    var (w', h') := AfterNext(w, h);
    var c, scan := w.it.value, ScanFrom(w.e.buf, w.it.value.hi);
    if c.sync.None? && c.lo == c.hi && !scan.Unfinished? {
      forall slot: Slot | slot in h'.stale ensures Suppressed(Used(w', h'), slot) {
        SuppressFrame(h.past, w.e.buf, c.hi, scan.end, slot);
      }
    } else {
      assert Used(w', h') == Used(w, h) && h'.stale == h.stale;
    }
  }

  lemma CarefulStep(w: World, h: History, op: Op)
    requires Inv(w, h) && Legal(w, op) && Careful(w, op) && StaleOnlySuppressed(w, h)
    ensures var (w', h') := After(w, h, op); StaleOnlySuppressed(w', h') && w'.e.caps == w.e.caps
  {
    hide ScanOk, Conserved, Cached, Viewed, StaleOnlySuppressed, AfterFetch, AfterNext, AfterDrop;
    StepKeepsCaps(w, h, op);
    match op
    case FetchOp(r) => CarefulFetch(w, h, r);
    case NextOp => CarefulNext(w, h);
    case DropOp => CarefulDrop(w, h);
  }

  lemma StepKeepsCaps(w: World, h: History, op: Op)
    requires OkWorld(w) && Legal(w, op)
    ensures After(w, h, op).0.e.caps == w.e.caps
  {
    match op
    case FetchOp(r) => FetchKeepsSafe(w.e, r);
    case NextOp => NextKeepsOk(w.e, w.it.value);
    case DropOp =>
  }

  lemma {:induction false} CarefulRunKeeps(w: World, h: History, ops: seq<Op>)
    requires Inv(w, h) && StaleOnlySuppressed(w, h) && LegalRun(w, h, ops) && CarefulRun(w, h, ops)
    ensures var (w', h') := Run(w, h, ops); StaleOnlySuppressed(w', h') && w'.e.caps == w.e.caps
    decreases |ops|
  {
    if ops == [] {
    } else {
      StepKeepsInv(w, h, ops[0]);
      CarefulStep(w, h, ops[0]);
      var (w', h') := After(w, h, ops[0]);
      CarefulRunKeeps(w', h', ops[1..]);
    }
  }

  lemma CarefulFromOpen(caps: Caps, ops: seq<Op>)
    requires LegalRun(Opened(caps), NothingYet(caps), ops) && CarefulRun(Opened(caps), NothingYet(caps), ops)
    ensures var (w, h) := Run(Opened(caps), NothingYet(caps), ops);
      Inv(w, h) && Agreed(w, h) && StaleOnlySuppressed(w, h) && w.e.caps == caps
  {
    OpenedInv(caps);
    OpenedAgreed(caps);
    CarefulRunKeeps(Opened(caps), NothingYet(caps), ops);
    RunKeepsAgreed(Opened(caps), NothingYet(caps), ops);
  }

  /**
   * In every run whose resynchronisations succeed and whose iterators are driven to completion,
   * at every step: on each supported key and axis that no damaged frame read so far writes, the
   * consumer's view folded with what is still owed (the rest of the current or synthetic frame,
   * then the scanned unfinished one) equals the device's cache.
   */
  lemma CarefulRunAgrees(caps: Caps, ops: seq<Op>, slot: Slot)
    requires LegalRun(Opened(caps), NothingYet(caps), ops) && CarefulRun(Opened(caps), NothingYet(caps), ops)
    requires Followed(caps, slot) && !Suppressed(Run(Opened(caps), NothingYet(caps), ops).1.read, slot)
    ensures var (w, h) := Run(Opened(caps), NothingYet(caps), ops);
      w.e.caps == caps && Get(Fold(ALL, h.view, Ahead(w, h)), slot) == Get(w.e.state, slot)
  {
    CarefulFromOpen(caps, ops);
    var (w, h) := Run(Opened(caps), NothingYet(caps), ops);
    NotSuppressedYet(w, h, slot);
    AgreesAtIsFold(w, h, slot);
  }

  lemma NotSuppressedYet(w: World, h: History, slot: Slot)
    requires OkWorld(w) && Conserved(w, h) && !Suppressed(h.read, slot)
    ensures !Suppressed(Used(w, h), slot)
  {
    var n := Position(w).consumed;
    MoveUsed(h.past, w.e.buf, n);
    DamagedPartConcat(h.past + w.e.buf[..n], w.e.buf[n..]);
    LastWriteConcat(DamagedPart(Used(w, h)), DamagedPart(w.e.buf[n..]), slot);
  }
}
