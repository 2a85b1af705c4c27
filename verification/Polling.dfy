/**
 * What one poll of the synchronising stream answers: when it is pending, which error it
 * reports, which event it delivers and which wake-ups it uses. Told by the wake-ups and by what
 * the fully driven iterators make of them.
 */
module Polling {
  import opened AsyncRefinement
  import opened Batches
  import opened Drivers
  import opened Engine
  import opened Events
  import opened Wrappers

  // The device after the fetches of the first k wake-ups, every one driven to completion.
  function EngineAt(e: Engine, wakes: seq<Wake>, k: nat): (r: Engine)
    requires Safe(e) && WakesPlausible(e.caps, wakes) && k <= |wakes|
    ensures Safe(r) && r.caps == e.caps
  {
    RepliesPlausible(e.caps, wakes[..k]);
    RunSync(e, Replies(wakes[..k])).0
  }

  // A wake-up that ends no poll: the fetch would block, or succeeds with nothing to deliver.
  ghost predicate Fruitless(e: Engine, wake: Wake)
    requires Safe(e) && (wake.Ready? ==> wake.reply.Plausible(e.caps))
  {
    wake.Ready? && (Refuses(e, wake.reply, EAGAIN) || RunBatch(e, wake.reply).1 == Some(Batch([], [])))
  }

  // Number k is the first wake-up that is not fruitless, or their end.
  ghost predicate FirstFruitful(e: Engine, wakes: seq<Wake>, k: nat)
    requires Safe(e) && WakesPlausible(e.caps, wakes)
  {
    && k <= |wakes|
    && (forall j: nat | j < k :: Fruitless(EngineAt(e, wakes, j), wakes[j]))
    && (k < |wakes| ==> !Fruitless(EngineAt(e, wakes, k), wakes[k]))
  }

  ghost predicate WakeFails(e: Engine, wake: Wake, x: Errno) {
    wake == ReadyFailed(x) || (wake.Ready? && Refuses(e, wake.reply, x))
  }

  // The answer wake-up k gives.
  ghost predicate Answer(e: Engine, wakes: seq<Wake>, k: nat, rest: seq<Wake>, p: Poll)
    requires Safe(e) && WakesPlausible(e.caps, wakes) && k <= |wakes|
  {
    && rest == (if k < |wakes| then wakes[k + 1..] else [])
    && (p.Pending? <==> k == |wakes| || wakes[k].NotReady?)
    && (forall x :: p == Failed(x) <==> k < |wakes| && WakeFails(EngineAt(e, wakes, k), wakes[k], x))
    && (p.Item? <==> k < |wakes| && wakes[k].Ready? && RunBatch(EngineAt(e, wakes, k), wakes[k].reply).1.Some?)
    && (p.Item? ==> Begins(RunBatch(EngineAt(e, wakes, k), wakes[k].reply).1.value, p.ev))
  }

  // The first event of a batch.
  predicate Begins(b: Batch, ev: InputEvent) {
    var out := b.synthetic + b.kernel;
    out != [] && out[0] == ev
  }

  // There always is one.
  lemma {:induction false} SomeWakeIsFruitful(e: Engine, wakes: seq<Wake>, from: nat) returns (k: nat)
    requires Safe(e) && WakesPlausible(e.caps, wakes) && from <= |wakes|
    requires forall j: nat | j < from :: Fruitless(EngineAt(e, wakes, j), wakes[j])
    ensures FirstFruitful(e, wakes, k)
    decreases |wakes| - from
  {
    hide EngineAt, Fruitless;
    if from == |wakes| || !Fruitless(EngineAt(e, wakes, from), wakes[from]) {
      k := from;
    } else {
      k := SomeWakeIsFruitful(e, wakes, from + 1);
    }
  }

  lemma EngineAtStart(e: Engine, wakes: seq<Wake>)
    requires Safe(e) && WakesPlausible(e.caps, wakes)
    ensures EngineAt(e, wakes, 0) == e
  {
    assert wakes[..0] == [];
  }

  lemma EngineAtNext(e: Engine, wakes: seq<Wake>, j: nat)
    requires Safe(e) && WakesPlausible(e.caps, wakes) && j < |wakes| && wakes[0].Ready?
    ensures WakesPlausible(e.caps, wakes[1..])
    ensures EngineAt(e, wakes, j + 1) == EngineAt(RunBatch(e, wakes[0].reply).0, wakes[1..], j)
  {
    var r, later := wakes[0].reply, Replies(wakes[1..][..j]);
    assert wakes[..j + 1][1..] == wakes[1..][..j];
    assert wakes[..j + 1][0] == wakes[0];
    assert Replies(wakes[..j + 1]) == [r] + later;
    assert ([r] + later)[1..] == later;
    RepliesPlausible(e.caps, wakes[..j + 1]);
    RepliesPlausible(e.caps, wakes[1..][..j]);
  }

  lemma FirstFruitfulShift(e: Engine, wakes: seq<Wake>, k: nat)
    requires Safe(e) && WakesPlausible(e.caps, wakes) && 0 < k && FirstFruitful(e, wakes, k) && wakes[0].Ready?
    ensures WakesPlausible(e.caps, wakes[1..]) && FirstFruitful(RunBatch(e, wakes[0].reply).0, wakes[1..], k - 1)
  {
    var e1 := RunBatch(e, wakes[0].reply).0;
    forall j: nat | j < k && j + 1 < |wakes|
      ensures Fruitless(EngineAt(e, wakes, j + 1), wakes[j + 1])
        <==> Fruitless(EngineAt(e1, wakes[1..], j), wakes[1..][j])
    {
      EngineAtNext(e, wakes, j);
    }
    EngineAtNext(e, wakes, 0);
  }

  lemma AnswerShift(e: Engine, wakes: seq<Wake>, k: nat, rest: seq<Wake>, p: Poll)
    requires Safe(e) && WakesPlausible(e.caps, wakes) && 0 < k <= |wakes| && wakes[0].Ready?
    requires WakesPlausible(e.caps, wakes[1..])
    requires Answer(RunBatch(e, wakes[0].reply).0, wakes[1..], k - 1, rest, p)
    ensures Answer(e, wakes, k, rest, p)
  {
    EngineAtNext(e, wakes, k - 1);
  }

  /** A batch that delivers nothing leaves what one fruitless scan leaves. */
  lemma EmptyBatchScans(e: Engine, r: Reply)
    requires Safe(e) && r.Plausible(e.caps) && RunBatch(e, r).1 == Some(Batch([], []))
    ensures Fetch(e, r).1 == Success(None)
    ensures var (e', c', out) := SyncEvents(Fetch(e, r).0, START);
      out.None? && c'.consumed <= |e'.buf| && RunBatch(e, r).0 == DropIterator(e', c')
  {
    FetchKeepsSafe(e, r);
    var (e1, res) := Fetch(e, r);
    var c := START.(sync := res.value);
    var (e2, c2, out) := Drive(e1, c);
    NextProgresses(e1, c);
    DeliversItsBatch(e, r);
    assert out == [];
  }

  lemma DeliversItsBatch(e: Engine, r: Reply)
    requires Safe(e) && r.Plausible(e.caps) && Fetch(e, r).1.Success?
    ensures Live(Fetch(e, r).0, START.(sync := Fetch(e, r).1.value))
    ensures var b := RunBatch(e, r).1.value;
      b.synthetic + b.kernel == Drive(Fetch(e, r).0, START.(sync := Fetch(e, r).1.value)).2
  {
    FetchKeepsSafe(e, r);
  }

  /** A batch that delivers something: the poll after the fetch delivers its first event. */
  lemma BatchBegins(e: Engine, r: Reply, rest: seq<Wake>)
    requires Safe(e) && r.Plausible(e.caps) && WakesPlausible(e.caps, rest)
    requires Fetch(e, r).1.Success? && RunBatch(e, r).1 != Some(Batch([], []))
    ensures var s := Stream(Fetch(e, r).0, START.(sync := Fetch(e, r).1.value));
      && StreamOk(s) && s.e.caps == e.caps
      && var (s1, left, p) := PollEvent(s, rest);
      left == rest && p.Item? && Begins(RunBatch(e, r).1.value, p.ev)
  {
    FetchKeepsSafe(e, r);
    DeliversItsBatch(e, r);
    var s := Stream(Fetch(e, r).0, START.(sync := Fetch(e, r).1.value));
    NextProgresses(s.e, s.c);
    if s.c.sync.None? { StreamScans(s); }
  }

  lemma FruitlessFails(s: Stream, r: Reply, wakes: seq<Wake>)
    requires Waiting(s) && r.Plausible(s.e.caps) && Refuses(s.e, r, EAGAIN)
    requires WakesPlausible(s.e.caps, wakes) && wakes != [] && wakes[0] == Ready(r)
    ensures var s1 := s.(e := RunBatch(s.e, r).0);
      Waiting(s1) && s1.e.caps == s.e.caps && AwaitFetch(s, wakes) == AwaitFetch(s1, wakes[1..])
  {
    FetchFailsIff(s.e, r, EAGAIN);
    FailedFetchWaits(s, r);
  }

  lemma FruitlessScans(s: Stream, r: Reply, wakes: seq<Wake>) returns (s1: Stream)
    requires Waiting(s) && r.Plausible(s.e.caps) && RunBatch(s.e, r).1 == Some(Batch([], []))
    requires WakesPlausible(s.e.caps, wakes) && wakes != [] && wakes[0] == Ready(r)
    ensures Waiting(s1) && s1.e == RunBatch(s.e, r).0 && AwaitFetch(s, wakes) == AwaitFetch(s1, wakes[1..])
  {
    FetchKeepsSafe(s.e, r);
    EmptyBatchScans(s.e, r);
    var t := Stream(Fetch(s.e, r).0, START);
    StreamScans(t);
    s1 := Drained(SyncEvents(t.e, t.c).0, SyncEvents(t.e, t.c).1);
  }

  lemma FirstWakeAnswers(s: Stream, wakes: seq<Wake>)
    requires Waiting(s) && WakesPlausible(s.e.caps, wakes) && FirstFruitful(s.e, wakes, 0)
    ensures var (s1, rest, p) := AwaitFetch(s, wakes); Answer(s.e, wakes, 0, rest, p)
  {
    EngineAtStart(s.e, wakes);
    if wakes != [] && wakes[0].Ready? {
      var r := wakes[0].reply;
      forall x ensures Fetch(s.e, r).1 == Failure(x) <==> Refuses(s.e, r, x) { FetchFailsIff(s.e, r, x); }
      if Fetch(s.e, r).1.Success? { BatchBegins(s.e, r, wakes[1..]); }
    }
  }

  /** What a stream that waits for its first fetch answers. */
  lemma {:induction false} AwaitAnswers(s: Stream, wakes: seq<Wake>, k: nat)
    requires Waiting(s) && WakesPlausible(s.e.caps, wakes) && FirstFruitful(s.e, wakes, k)
    ensures var (s1, rest, p) := AwaitFetch(s, wakes); Answer(s.e, wakes, k, rest, p)
    decreases |wakes|
  {
    if k == 0 {
      FirstWakeAnswers(s, wakes);
    } else {
      EngineAtStart(s.e, wakes);
      assert Fruitless(s.e, wakes[0]);
      var r := wakes[0].reply;
      FirstFruitfulShift(s.e, wakes, k);
      var s1: Stream;
      if Refuses(s.e, r, EAGAIN) {
        FruitlessFails(s, r, wakes);
        s1 := s.(e := RunBatch(s.e, r).0);
      } else {
        s1 := FruitlessScans(s, r, wakes);
      }
      AwaitAnswers(s1, wakes[1..], k - 1);
      var (s2, rest, p) := AwaitFetch(s1, wakes[1..]);
      AnswerShift(s.e, wakes, k, rest, p);
    }
  }

  /**
   * What a poll answers when nothing is buffered for delivery. The first wake-up that is not
   * fruitless decides, and is the last one used. Its events: the first of them. An error of the
   * reactor or of the fetch, other than that it would block: that error. Not ready, or no such
   * wake-up at all: Pending.
   */
  lemma PollAnswers(s: Stream, wakes: seq<Wake>, k: nat)
    requires StreamOk(s) && s.c.sync.None? && SyncEvents(s.e, s.c).2.None?
    requires WakesPlausible(s.e.caps, wakes)
    requires var (e, c, out) := SyncEvents(s.e, s.c);
      && c.consumed <= |e.buf| && e.caps == s.e.caps && Safe(DropIterator(e, c))
      && FirstFruitful(DropIterator(e, c), wakes, k)
    ensures var (e, c, out) := SyncEvents(s.e, s.c); var (s1, rest, p) := PollEvent(s, wakes);
      Answer(DropIterator(e, c), wakes, k, rest, p)
  {
    StreamScans(s);
    var (e, c, out) := SyncEvents(s.e, s.c);
    AwaitAnswers(Drained(e, c), wakes, k);
  }

  /** The same from a stream that last answered Pending or an error. */
  lemma RestingPollAnswers(s: Stream, wakes: seq<Wake>, k: nat)
    requires Resting(s) && WakesPlausible(s.e.caps, wakes) && FirstFruitful(s.e, wakes, k)
    ensures var (s1, rest, p) := PollEvent(s, wakes); Answer(s.e, wakes, k, rest, p)
  {
    PollAgain(s, wakes);
    AwaitAnswers(s, wakes, k);
  }

  /** Whatever is outstanding comes first, one event a poll, and costs no wake-up. */
  lemma OutstandingComesFirst(s: Stream, wakes: seq<Wake>)
    requires Live(s.e, s.c) && WakesPlausible(s.e.caps, wakes) && Outstanding(s.e, s.c) != []
    ensures var (s1, rest, p) := PollEvent(s, wakes); rest == wakes && p == Item(Outstanding(s.e, s.c)[0])
  {
    OutstandingStep(s.e, s.c);
    if s.c.sync.None? { StreamScans(s); }
  }
}
