/**
 * The fetch that answers a damaged frame, reached by any run: slot by slot, for all four
 * classes, when the consumer ends up with the kernel's value, and what is lost when it fails.
 */
module Recovery {
  import opened Compensation
  import opened Consumer
  import opened DeviceState
  import opened Engine
  import opened Runs
  import opened Wrappers

  // A device that owes a resynchronisation and is about to fetch.
  ghost predicate Due(w: World, h: History, r: Reply) {
    Inv(w, h) && w.e.dropped && Legal(w, FetchOp(r))
  }

  predicate Answers(caps: Caps, r: Reply) {
    r.IoctlsSucceed(caps) && r.read.Success?
  }

  // The fetch, then as many calls of `next` as the synthetic frame has events.
  ghost function Recovered(w: World, h: History, r: Reply): (World, History)
    requires Due(w, h, r) && Answers(w.e.caps, r)
  {
    RecoveryRuns(w, h, r);
    var (w1, h1) := AfterFetch(w, h, r);
    Run(w1, h1, Nexts(|PendingFrame(w1.e.caps, w1.e.prev, w1.e.state, w1.it.value.sync)|))
  }

  lemma RecoveryRuns(w: World, h: History, r: Reply)
    requires Due(w, h, r) && Answers(w.e.caps, r)
    ensures var (w1, h1) := AfterFetch(w, h, r);
      && w1.it == Some(START.(sync := Some(KeyTypes(r.now, 0)))) && w1.e.prev == w.e.state
      && w1.e.state == Resync(w.e.caps, w.e.state, r).0 && w1.e.caps == w.e.caps
      && h1.view == h.view && h1.log == h.log
      && var frame := PendingFrame(w.e.caps, w.e.state, w1.e.state, w1.it.value.sync);
      && LegalRun(w1, h1, Nexts(|frame|))
      && var (w2, h2) := Run(w1, h1, Nexts(|frame|));
      && Inv(w2, h2) && w2.e.caps == w.e.caps && Delivered(h2.log) == Delivered(h.log) + frame
  {
    FetchResyncsIff(w.e, r);
    FetchKeepsSafe(w.e, r);
    StepKeepsInv(w, h, FetchOp(r));
    var (w1, h1) := AfterFetch(w, h, r);
    var frame := PendingFrame(w.e.caps, w.e.state, w1.e.state, w1.it.value.sync);
    DriveSynthetic(w1, h1, frame);
    RunKeepsInv(w1, h1, Nexts(|frame|));
  }

  // The consumer's view once the synthetic frame is through is that frame folded over the old one.
  lemma RecoveredView(w: World, h: History, r: Reply)
    requires Due(w, h, r) && Answers(w.e.caps, r)
    ensures Recovered(w, h, r).1.view == Fold(ALL, h.view,
      PendingFrame(w.e.caps, w.e.state, Resync(w.e.caps, w.e.state, r).0, Some(KeyTypes(r.now, 0))))
  {
    RecoveryRuns(w, h, r);
    FoldConcat(ALL, NewState(w.e.caps), Delivered(h.log),
      PendingFrame(w.e.caps, w.e.state, Resync(w.e.caps, w.e.state, r).0, Some(KeyTypes(r.now, 0))));
  }

  /**
   * The promise after a drop, exactly, in every run and for keys, axes, switches and LEDs: the
   * consumer that folded everything delivered ends with the kernel's value of a slot if and
   * only if it already had it or the cache had not.
   */
  lemma RecoversIff(w: World, h: History, r: Reply, slot: Slot)
    requires Due(w, h, r) && Answers(w.e.caps, r) && w.e.caps.Supports(slot)
    ensures Get(Recovered(w, h, r).1.view, slot) == r.Value(slot)
      <==> Get(h.view, slot) == r.Value(slot) || Get(w.e.state, slot) != r.Value(slot)
  {
    hide ScanOk, Conserved, Cached, Fold, Resync, PendingFrame, Recovered;
    RecoveredView(w, h, r);
    ResyncReadsKernel(w.e.caps, w.e.state, r);
    ConsumerAgreesIff(ALL, w.e.caps, h.view, w.e.state, Resync(w.e.caps, w.e.state, r).0, r.now, slot);
  }

  /**
   * Agreement after a drop, in every run. When the fetch that follows a damaged frame succeeds,
   * the consumer receives the synthetic frame first and nothing else until its end. Then it has
   * the kernel's value of a slot, of any class, exactly when it had it before or the cache had
   * not; and that covers every supported key and axis the history does not call stale.
   */
  lemma AgreementAfterDrop(w: World, h: History, r: Reply)
    requires Inv(w, h) && Agreed(w, h) && w.e.dropped && Legal(w, FetchOp(r))
    requires r.IoctlsSucceed(w.e.caps) && r.read.Success?
    ensures var (w1, h1) := AfterFetch(w, h, r);
      var frame := PendingFrame(w.e.caps, w.e.state, w1.e.state, Some(KeyTypes(r.now, 0)));
      && w1.it == Some(START.(sync := Some(KeyTypes(r.now, 0))))
      && LegalRun(w1, h1, Nexts(|frame|))
      && var (w2, h2) := Run(w1, h1, Nexts(|frame|));
      && Inv(w2, h2) && Agreed(w2, h2) && w2.it == Some(START)
      && Delivered(h2.log) == Delivered(h.log) + frame
      && KernelPart(h2.log) == KernelPart(h.log)
      && (forall slot: Slot | w.e.caps.Supports(slot) ::
            Get(h2.view, slot) == r.Value(slot)
            <==> Get(h.view, slot) == r.Value(slot) || Get(w.e.state, slot) != r.Value(slot))
      && (forall slot: Slot | Followed(w.e.caps, slot) && slot !in h.stale :: Get(h2.view, slot) == r.Value(slot))
  {
    FetchResyncsIff(w.e, r);
    ResyncReadsKernel(w.e.caps, w.e.state, r);
    StepKeepsInv(w, h, FetchOp(r));
    StepKeepsAgreed(w, h, FetchOp(r));
    var (w1, h1) := AfterFetch(w, h, r);
    var frame := PendingFrame(w.e.caps, w.e.state, w1.e.state, Some(KeyTypes(r.now, 0)));
    DriveSynthetic(w1, h1, frame);
    RunKeepsAgreed(w1, h1, Nexts(|frame|));
    var (w2, h2) := Run(w1, h1, Nexts(|frame|));
    forall slot: Slot | w.e.caps.Supports(slot)
      ensures Get(h2.view, slot) == r.Value(slot)
        <==> Get(h.view, slot) == r.Value(slot) || Get(w.e.state, slot) != r.Value(slot)
    {
      RecoversIff(w, h, r, slot);
    }
    forall slot: Slot | Followed(w.e.caps, slot) && slot !in h.stale ensures Get(h2.view, slot) == r.Value(slot) {
      assert Get(w1.e.state, slot) == r.Value(slot);
      assert AgreesAt(w2, h2, slot) && Ahead(w2, h2) == [];
    }
  }

  /**
   * In every run whose resynchronisations succeed and whose iterators are driven to the end:
   * once the synthetic frame is through, the consumer has the kernel's own value of every
   * supported key and axis that no damaged frame wrote or whose cached value the snapshot
   * changed.
   */
  lemma CarefulRunAgreesAfterDrop(caps: Caps, ops: seq<Op>, r: Reply)
    requires LegalRun(Opened(caps), NothingYet(caps), ops) && CarefulRun(Opened(caps), NothingYet(caps), ops)
    requires var (w, h) := Run(Opened(caps), NothingYet(caps), ops);
      w.e.dropped && Legal(w, FetchOp(r)) && r.IoctlsSucceed(caps) && r.read.Success?
    ensures var (w, h) := Run(Opened(caps), NothingYet(caps), ops);
      var (w1, h1) := AfterFetch(w, h, r);
      var frame := PendingFrame(caps, w.e.state, w1.e.state, Some(KeyTypes(r.now, 0)));
      && LegalRun(w1, h1, Nexts(|frame|))
      && var (w2, h2) := Run(w1, h1, Nexts(|frame|));
      && Delivered(h2.log) == Delivered(h.log) + frame
      && forall slot: Slot |
           Followed(caps, slot) && (!Suppressed(h.past, slot) || Get(w.e.state, slot) != r.Value(slot)) ::
           Get(h2.view, slot) == r.Value(slot)
  {
    CarefulFromOpen(caps, ops);
    var (w, h) := Run(Opened(caps), NothingYet(caps), ops);
    AgreementAfterDrop(w, h, r);
    assert Used(w, h) == h.past;
  }

  // The kernel state that a cache already reads.
  function Unchanged(caps: Caps, s: StateVal): Reply {
    Reply(s.timestamp,
      Success(if s.keys.Some? then s.keys.value else seq(caps.counts.keys, _ => false)),
      if s.abs.Some? then seq(|s.abs.value|, i requires 0 <= i < |s.abs.value| => Success(s.abs.value[i]))
      else seq(caps.counts.abs, _ => Success(ABSINFO_ZERO)),
      Success(if s.switches.Some? then s.switches.value else seq(caps.counts.switches, _ => false)),
      Success(if s.leds.Some? then s.leds.value else seq(caps.counts.leds, _ => false)),
      Success([]))
  }

  lemma UnchangedReads(caps: Caps, s: StateVal, slot: Slot)
    requires Fits(caps, s) && caps.Supports(slot)
    ensures Unchanged(caps, s).Plausible(caps) && Answers(caps, Unchanged(caps, s))
    ensures Unchanged(caps, s).Value(slot) == Get(s, slot)
  {
    FitsFields(caps, s);
  }

  /**
   * What a caller can check before the fetch: a slot comes out right whatever the kernel
   * reports if and only if the consumer's view of it equals the device's cached state.
   */
  lemma RecoversFromAnyIff(w: World, h: History, slot: Slot)
    requires Inv(w, h) && w.e.dropped && w.it.None? && w.e.caps.Supports(slot)
    ensures
      (forall r: Reply | Legal(w, FetchOp(r)) && Answers(w.e.caps, r) ::
         Get(Recovered(w, h, r).1.view, slot) == r.Value(slot))
      <==> Get(h.view, slot) == Get(w.e.state, slot)
  {
    forall r: Reply | Legal(w, FetchOp(r)) && Answers(w.e.caps, r)
      ensures Get(Recovered(w, h, r).1.view, slot) == r.Value(slot)
        <==> Get(h.view, slot) == r.Value(slot) || Get(w.e.state, slot) != r.Value(slot)
    {
      RecoversIff(w, h, r, slot);
    }
    UnchangedReads(w.e.caps, w.e.state, slot);
    assert Legal(w, FetchOp(Unchanged(w.e.caps, w.e.state)));
  }

  /**
   * For switches and LEDs the cache only ever reads what the last resynchronisation read, so
   * this is the value a consumer has to hold for the promise to be safe.
   */
  lemma UnfollowedCacheIsSnapshot(w: World, h: History, slot: Slot)
    requires Inv(w, h) && slot.cls !in TRACKED
    ensures Get(w.e.state, slot) == Get(h.origin, slot)
    ensures h.resyncs + h.unanswered == 0 ==> Get(w.e.state, slot) == 0
  {
    FoldKeepsBackground(TRACKED, h.origin, h.trail + w.e.buf[..h.scanned]);
    assert Get(w.e.state, Slot(slot.cls, slot.code)) == Get(h.origin, Slot(slot.cls, slot.code));
  }

  /**
   * A fetch that fails with the flag set delivers nothing and spoils exactly the slots whose
   * ioctl was reached and whose cached value that changed: every other slot the consumer had
   * right stays right, and one whose cached value moved is right only if it was wrong before.
   */
  lemma FailedFetchSpoils(w: World, h: History, r: Reply, slot: Slot)
    requires Due(w, h, r) && !Answers(w.e.caps, r) && w.e.caps.Supports(slot)
    ensures var (w', h') := AfterFetch(w, h, r);
      var moved := r.Reaches(w.e.caps, slot) && Get(w.e.state, slot) != r.Value(slot);
      && w'.it.None? && !w'.e.dropped && w'.e.buf == w.e.buf && h'.view == h.view && h'.log == h.log
      && (slot in h'.stale <==> slot in h.stale || moved)
      && Get(w'.e.state, slot) == (if moved then r.Value(slot) else Get(w.e.state, slot))
      && (AgreesAt(w, h, slot) ==> (AgreesAt(w', h', slot) <==> !moved))
  {
    FetchResyncsIff(w.e, r);
    PartialResync(w.e.caps, w.e.state, r, slot);
    assert Ahead(w, h) == [];
    assert Ahead(AfterFetch(w, h, r).0, AfterFetch(w, h, r).1) == [];
  }
}
