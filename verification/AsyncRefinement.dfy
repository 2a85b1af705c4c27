/**
 * The asynchronous driver delivers what fully driven iterators deliver, for any number and
 * placement of pending polls, spurious wake-ups and failures.
 */
module AsyncRefinement {
  import opened Compensation
  import opened DeviceState
  import opened Drivers
  import opened Engine
  import opened Events
  import opened Sequences
  import opened Wrappers

  // The two devices differ at most in `prev_state`, and no pending diff can tell them apart.
  ghost predicate Twins(async: Engine, sync: Engine, c: Cursor) {
    && async.(prev := sync.prev) == sync
    && (c.sync.Some? ==> AgreeFrom(sync.caps, async.prev, sync.prev, c.sync.value))
  }

  // The same deliveries, and the same buffer, cache and flag at the end.
  predicate SameRun(async: (Stream, seq<InputEvent>), sync: (Engine, seq<InputEvent>)) {
    async.1 == sync.1 && async.0.e.(prev := sync.0.prev) == sync.0
  }

  // Driving the current iterator to completion, then the fetches that follow.
  function FinishThenFetch(e: Engine, c: Cursor, replies: seq<Reply>): (Engine, seq<InputEvent>)
    requires Live(e, c) && AllPlausible(e.caps, replies)
  {
    var (e1, c1, out) := Drive(e, c);
    DropIsSafe(e1, c1);
    var (e2, batches) := RunSync(DropIterator(e1, c1), replies);
    (e2, out + Flatten(batches))
  }

  lemma DropIsSafe(e: Engine, c: Cursor)
    requires Live(e, c)
    ensures Safe(DropIterator(e, c))
  {
  }

  function FetchesFrom(e: Engine, replies: seq<Reply>): (Engine, seq<InputEvent>)
    requires Safe(e) && AllPlausible(e.caps, replies)
  {
    var (e', batches) := RunSync(e, replies);
    (e', Flatten(batches))
  }

  // What a run does with the outcome of one poll.
  function Continue(s: Stream, rest: seq<Wake>, p: Poll): (Stream, seq<InputEvent>)
    requires StreamOk(s) && WakesPlausible(s.e.caps, rest)
  {
    if p.Item? then
      var (s', more) := RunAsync(s, rest);
      (s', [p.ev] + more)
    else if rest == [] then (s, [])
    else RunAsync(s, rest)
  }

  lemma {:induction false} RepliesPlausible(caps: Caps, wakes: seq<Wake>)
    requires WakesPlausible(caps, wakes)
    ensures AllPlausible(caps, Replies(wakes))
  {
    if wakes == [] {
    } else {
      RepliesPlausible(caps, wakes[1..]);
    }
  }

  lemma FinishStep(e: Engine, c: Cursor, replies: seq<Reply>)
    requires Live(e, c) && AllPlausible(e.caps, replies)
    ensures var (e1, c1, out) := NextEvent(e, c);
      && Live(e1, c1) && e1.caps == e.caps
      && (out.Some? ==>
            var (e2, more) := FinishThenFetch(e1, c1, replies);
            FinishThenFetch(e, c, replies) == (e2, [out.value] + more))
  {
    NextKeepsOk(e, c);
    NextProgresses(e, c);
    var (e1, c1, out) := NextEvent(e, c);
    if out.Some? {
      var (e2, c2, more) := Drive(e1, c1);
      var (e3, batches) := RunSync(DropIterator(e2, c2), replies);
      Associative([out.value], more, Flatten(batches));
    }
  }

  lemma FirstFetchSucceeds(e: Engine, r: Reply, replies: seq<Reply>)
    requires Safe(e) && r.Plausible(e.caps) && AllPlausible(e.caps, replies)
    requires Fetch(e, r).1.Success?
    ensures Live(Fetch(e, r).0, START.(sync := Fetch(e, r).1.value))
    ensures FetchesFrom(e, [r] + replies) ==
      FinishThenFetch(Fetch(e, r).0, START.(sync := Fetch(e, r).1.value), replies)
  {
    FetchKeepsSafe(e, r);
    assert ([r] + replies)[1..] == replies;
    var (e1, batch) := RunBatch(e, r);
    var (e2, more) := RunSync(e1, replies);
    var (e3, c3, out) := Drive(Fetch(e, r).0, START.(sync := Fetch(e, r).1.value));
    assert batch.value.synthetic + batch.value.kernel == out;
    assert ([batch.value] + more)[1..] == more;
  }

  lemma FirstFetchFails(e: Engine, r: Reply, replies: seq<Reply>)
    requires Safe(e) && r.Plausible(e.caps) && AllPlausible(e.caps, replies)
    requires Fetch(e, r).1.Failure?
    ensures Safe(Fetch(e, r).0)
    ensures FetchesFrom(e, [r] + replies) == FetchesFrom(Fetch(e, r).0, replies)
  {
    FetchKeepsSafe(e, r);
    assert ([r] + replies)[1..] == replies;
  }

  /** A fetch cannot tell twins apart, and leaves twins. */
  lemma FetchTwins(async: Engine, sync: Engine, r: Reply)
    requires async.(prev := sync.prev) == sync
    ensures var (a, ra) := Fetch(async, r); var (b, rb) := Fetch(sync, r);
      ra == rb && a.(prev := b.prev) == b && (async.dropped ==> a == b)
  {
  }

  lemma {:induction false} LiveFollows(s: Stream, e: Engine, wakes: seq<Wake>)
    requires Live(s.e, s.c) && Live(e, s.c) && Twins(s.e, e, s.c)
    requires WakesPlausible(e.caps, wakes) && AllPlausible(e.caps, Replies(wakes))
    ensures SameRun(RunAsync(s, wakes), FinishThenFetch(e, s.c, Replies(wakes)))
    decreases |wakes|, Left(s.e, s.c), 1
  {
    NextKeepsOk(e, s.c);
    if s.c.sync.Some? {
      EmitTogether(s, e, wakes);
      LiveFollows(PollEvent(s, wakes).0, NextEvent(e, s.c).0, wakes);
      ItemFollows(s, e, wakes);
    } else {
      ScanTogether(s, e, wakes);
      var (a, c', out) := SyncEvents(s.e, s.c);
      var b := NextEvent(e, s.c).0;
      if out.Some? {
        LiveFollows(Stream(a, c'), b, wakes);
        ItemFollows(s, e, wakes);
      } else {
        FinishNone(e, s.c, Replies(wakes));
        RestFollows(Drained(a, c'), DropIterator(b, c'), wakes);
      }
    }
  }

  // One event delivered by both, and the same run after it.
  lemma ItemFollows(s: Stream, e: Engine, wakes: seq<Wake>)
    requires StreamOk(s) && Live(e, s.c) && e.caps == s.e.caps
    requires WakesPlausible(e.caps, wakes) && AllPlausible(e.caps, Replies(wakes))
    requires var (s1, rest, p) := PollEvent(s, wakes); var (e1, c1, out) := NextEvent(e, s.c);
      && rest == wakes && p.Item? && out == Some(p.ev)
      && Live(e1, c1) && e1.caps == e.caps && SameRun(RunAsync(s1, wakes), FinishThenFetch(e1, c1, Replies(wakes)))
    ensures SameRun(RunAsync(s, wakes), FinishThenFetch(e, s.c, Replies(wakes)))
  {
    FinishStep(e, s.c, Replies(wakes));
  }

  lemma ScanTogether(s: Stream, e: Engine, wakes: seq<Wake>)
    requires Live(s.e, s.c) && Live(e, s.c) && Twins(s.e, e, s.c) && s.c.sync.None?
    requires WakesPlausible(e.caps, wakes)
    ensures var (a, c', out) := SyncEvents(s.e, s.c); var (b, c2, out2) := NextEvent(e, s.c);
      && c2 == c' && out2 == out && a.(prev := b.prev) == b
      && (out.Some? ==>
            && Live(a, c') && Live(b, c') && c'.sync.None? && Left(a, c') < Left(s.e, s.c)
            && PollEvent(s, wakes) == (Stream(a, c'), wakes, Item(out.value)))
      && (out.None? ==>
            && c'.consumed <= |a.buf| && Resting(Drained(a, c')) && Safe(DropIterator(b, c'))
            && PollEvent(s, wakes) == AwaitFetch(Drained(a, c'), wakes))
  {
    StreamScans(s);
    NextKeepsOk(s.e, s.c);
    NextKeepsOk(e, s.c);
    if SyncEvents(s.e, s.c).2.None? { NoneRests(s.e, s.c); }
  }

  lemma FinishNone(e: Engine, c: Cursor, replies: seq<Reply>)
    requires Live(e, c) && AllPlausible(e.caps, replies) && NextEvent(e, c).2.None?
    ensures var (e1, c1, out) := NextEvent(e, c);
      Live(e1, c1) && Safe(DropIterator(e1, c1)) && e1.caps == e.caps
      && FinishThenFetch(e, c, replies) == FetchesFrom(DropIterator(e1, c1), replies)
  {
    NextKeepsOk(e, c);
    var (e1, c1, out) := NextEvent(e, c);
    DropIsSafe(e1, c1);
    var batches := RunSync(DropIterator(e1, c1), replies).1;
    assert [] + Flatten(batches) == Flatten(batches);
  }

  // The iterator folds what it emits into `prev_state`, the stream does not: still twins.
  lemma EmitTogether(s: Stream, e: Engine, wakes: seq<Wake>)
    requires Live(s.e, s.c) && Live(e, s.c) && Twins(s.e, e, s.c) && s.c.sync.Some?
    requires WakesPlausible(e.caps, wakes)
    ensures var (s1, rest, p) := PollEvent(s, wakes); var (e1, c1, out) := NextEvent(e, s.c);
      && rest == wakes && p.Item? && out == Some(p.ev) && s1.c == c1
      && Live(s1.e, c1) && Live(e1, c1) && Twins(s1.e, e1, c1)
  {
    NextKeepsOk(e, s.c);
    CompensateDependsOn(e.caps, s.e.prev, e.prev, e.state, s.c.sync.value);
    FoldingEmittedIsInvisible(e.caps, e.prev, s.e.prev, e.state, s.c.sync.value);
  }

  lemma NothingMore(s: Stream, e: Engine)
    requires Resting(s) && Safe(e) && s.e.(prev := e.prev) == e
    ensures SameRun((s, []), FetchesFrom(e, []))
  {
  }

  lemma {:induction false} RestFollows(s: Stream, e: Engine, wakes: seq<Wake>)
    requires Resting(s) && Safe(e) && s.e.(prev := e.prev) == e
    requires WakesPlausible(e.caps, wakes) && AllPlausible(e.caps, Replies(wakes))
    ensures var (s1, rest, p) := AwaitFetch(s, wakes);
      SameRun(Continue(s1, rest, p), FetchesFrom(e, Replies(wakes)))
    decreases |wakes|, 0, 0
  {
    hide FetchesFrom, FinishThenFetch, Fold;
    if wakes == [] {
      NothingMore(s, e);
    } else {
      var rest := wakes[1..];
      if wakes[0].Ready? {
        var r := wakes[0].reply;
        assert Replies(wakes) == [r] + Replies(rest);
        assert AllPlausible(e.caps, Replies(rest)) by {
          assert forall i | 0 <= i < |Replies(rest)| :: Replies(rest)[i] == Replies(wakes)[i + 1];
        }
        FetchTogether(s, e, r);
        if Fetch(e, r).1.Success? {
          FirstFetchSucceeds(e, r, Replies(rest));
          LiveFollows(Stream(Fetch(s.e, r).0, START.(sync := Fetch(e, r).1.value)), Fetch(e, r).0, rest);
        } else {
          FirstFetchFails(e, r, Replies(rest));
          var s1 := s.(e := Fetch(s.e, r).0);
          RestFollows(s1, Fetch(e, r).0, rest);
          if Fetch(e, r).1.error != EAGAIN { PollAgain(s1, rest); }
        }
      } else {
        assert Replies(wakes) == Replies(rest);
        RestFollows(s, e, rest);
        PollAgain(s, rest);
      }
    }
  }

  lemma FetchTogether(s: Stream, e: Engine, r: Reply)
    requires Resting(s) && Safe(e) && s.e.(prev := e.prev) == e && r.Plausible(e.caps)
    ensures var (a, res) := Fetch(s.e, r); var (b, res') := Fetch(e, r);
      && res == res' && a.(prev := b.prev) == b && Safe(b)
      && (res.Success? ==>
            var c := START.(sync := res.value); Live(a, c) && Live(b, c) && Twins(a, b, c))
      && (res.Failure? ==> Resting(s.(e := a)))
  {
    FetchTwins(s.e, e, r);
    FetchKeepsSafe(s.e, r);
    FetchKeepsSafe(e, r);
    if Fetch(e, r).1.Failure? { FailedFetchRests(s, r); }
  }

  /** Polling a resting stream again is waiting again: the stale range costs nothing. */
  lemma PollAgain(s: Stream, wakes: seq<Wake>)
    requires Resting(s) && WakesPlausible(s.e.caps, wakes)
    ensures PollEvent(s, wakes) == AwaitFetch(s, wakes)
    ensures var (s1, rest, p) := AwaitFetch(s, wakes);
      Continue(s, wakes, Pending) == Continue(s1, rest, p)
  {
    RestingScansNothing(s);
    StreamScans(s);
  }

  /**
   * A stream made from a device whose resynchronisation is pending: its first event comes from
   * the buffer, ahead of the synthetic frame, if and only if a clean frame heads the buffer.
   * Iterators never do that, see BatchExact.
   */
  lemma LeftoverComesFirstIff(e: Engine, wakes: seq<Wake>)
    requires Safe(e) && e.dropped && WakesPlausible(e.caps, wakes)
    ensures StreamOk(Stream(e, START))
    ensures var (s, rest, p) := PollEvent(Stream(e, START), wakes);
      && ((p.Item? && |rest| == |wakes|) <==> ScanFrom(e.buf, 0).CleanUpTo?)
      && (ScanFrom(e.buf, 0).CleanUpTo? ==> p == Item(e.buf[0]) && s.e.dropped)
  {
    AnyDeviceStreams(e);
    StreamScans(Stream(e, START));
  }

  /**
   * The refinement: from a freshly opened device, and under any wake-ups whatever, polling
   * delivers the sequence that one fully driven iterator per successful fetch delivers, and
   * leaves the same buffer, the same cached state and the same pending resynchronisation.
   */
  lemma AsyncRefinesSync(caps: Caps, wakes: seq<Wake>)
    requires WakesPlausible(caps, wakes)
    ensures StreamOk(Stream(Open(caps), START)) && Safe(Open(caps)) && AllPlausible(caps, Replies(wakes))
    ensures var (s, delivered) := RunAsync(Stream(Open(caps), START), wakes);
      var (e, batches) := RunSync(Open(caps), Replies(wakes));
      && delivered == Flatten(batches)
      && s.e.state == e.state && s.e.buf == e.buf && s.e.dropped == e.dropped
  {
    var start := Stream(Open(caps), START);
    RepliesPlausible(caps, wakes);
    assert Fold(TRACKED, start.e.state, []) == start.e.state;
    assert Resting(start);
    RestFollows(start, Open(caps), wakes);
    PollAgain(start, wakes);
  }
}
