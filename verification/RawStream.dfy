/**
 * The raw device and its asynchronous stream, which does no synchronisation. The stream of a
 * uinput device is the same code over the same buffer.
 */
module RawStream {
  import opened AttributeSet
  import opened DeviceState
  import opened Drivers
  import opened Engine
  import opened Events
  import opened Sequences
  import opened Wrappers

  class RawDevice {
    const caps: Caps
    var eventBuf: seq<InputEvent>

    // `from_fd`: a bitmap is asked for, and kept, only for the event types reported.
    constructor FromFd(types: set<u16>, counts: Counts, bitmaps: map<Class, seq<bool>>)
      requires forall cls: Class :: cls in bitmaps && |bitmaps[cls]| == counts.Of(cls) as int
      ensures eventBuf == [] && caps.types == types && caps.counts == counts
      ensures forall cls: Class :: caps.Supported(cls) == if TypeOf(cls) in types then Some(bitmaps[cls]) else None
    {
      eventBuf := [];
      var keys := if EV_KEY in types then Some(bitmaps[KeyClass]) else None;
      var abs := if EV_ABS in types then Some(bitmaps[AbsClass]) else None;
      var switches := if EV_SW in types then Some(bitmaps[SwitchClass]) else None;
      var leds := if EV_LED in types then Some(bitmaps[LedClass]) else None;
      var record := CapsRecord(types, counts, keys, abs, switches, leds);
      assert record.Valid() by {
        forall cls: Class
          ensures record.Supported(cls) == if TypeOf(cls) in types then Some(bitmaps[cls]) else None
        {}
      }
      caps := record;
    }

    method FillEvents(read: Result<seq<InputEvent>, Errno>) returns (r: Result<nat, Errno>)
      modifies this
      ensures read.Success? ==> r == Success(|read.value|) && eventBuf == old(eventBuf) + read.value
      ensures read.Failure? ==> r == Failure(read.error) && eventBuf == old(eventBuf)
    {
      match read
      case Failure(err) => r := Failure(err);
      case Success(chunk) =>
        eventBuf := eventBuf + chunk;
        r := Success(|chunk|);
    }

    /** The raw `fetch_events`: everything buffered is handed over and the buffer left empty. */
    method FetchEvents(read: Result<seq<InputEvent>, Errno>) returns (r: Result<seq<InputEvent>, Errno>)
      modifies this
      ensures read.Success? ==> r == Success(old(eventBuf) + read.value) && eventBuf == []
      ensures read.Failure? ==> r == Failure(read.error) && eventBuf == old(eventBuf)
    {
      var filled := FillEvents(read);
      if filled.Failure? { return Failure(filled.error); }
      r := Success(eventBuf);
      eventBuf := [];
    }

    /**
     * `update_abs_state`: ask for each supported axis in turn, stop at the first failure. A
     * device without an axis bitmap is asked nothing.
     */
    method UpdateAbsState(vals: seq<AbsInfo>, replies: seq<Result<AbsInfo, Errno>>)
      returns (out: seq<AbsInfo>, err: Option<Errno>)
      requires |vals| == |replies| == caps.counts.abs as int
      ensures (Some(out), err) == UpdateAxes(caps, Some(vals), replies)
      ensures caps.abs.None? ==> out == vals && err.None?
    {
      out := vals;
      err := None;
      if caps.abs.None? { return; }
      var supported := caps.abs.value;
      assert |supported| == caps.counts.Of(AbsClass) as int by { assert caps.Supported(AbsClass) == caps.abs; }
      assert supported[0..] == supported;
      var it := new AttributeSetRefIter(supported, 0);
      var axis := it.Next();
      SkipUnsupported(supported, out, replies, 0, if axis.Some? then axis.value as nat else |supported|);
      while axis.Some?
        invariant it.Valid() && it.bits == supported && it.offset == 0 && it.back == |supported|
        invariant |out| == |vals|
        invariant axis.Some? ==> 0 <= axis.value < |supported| && supported[axis.value] && it.front == axis.value + 1
        invariant UpdateAbs(supported, vals, replies, 0) ==
          UpdateAbs(supported, out, replies, if axis.Some? then axis.value as nat else |supported|)
        decreases |supported| - it.front, if axis.Some? then 1 else 0
      {
        var i := axis.value;
        match replies[i] {
          case Failure(e) =>
            err := Some(e);
            return;
          case Success(info) => out := out[i as nat := info];
        }
        axis := it.Next();
        SkipUnsupported(supported, out, replies, i + 1, if axis.Some? then axis.value as nat else |supported|);
      }
    }
  }

  lemma {:induction false} SkipUnsupported(
      supported: seq<bool>, vals: seq<AbsInfo>, replies: seq<Result<AbsInfo, Errno>>, i: nat, j: nat)
    requires |supported| == |vals| == |replies| && i <= j <= |vals|
    requires forall k | i <= k < j :: !supported[k]
    ensures UpdateAbs(supported, vals, replies, i) == UpdateAbs(supported, vals, replies, j)
    decreases j - i
  {
    if i == j {
    } else {
      SkipUnsupported(supported, vals, replies, i + 1, j);
    }
  }

  // `poll_event` of the raw stream on values: buffer, index, wake-ups left, outcome.
  function PollRaw(buf: seq<InputEvent>, index: nat, wakes: seq<Wake>): (r: (seq<InputEvent>, nat, seq<Wake>, Poll))
    requires index <= |buf|
    ensures r.1 <= |r.0| && |r.2| <= |wakes|
    ensures r.3.Item? && |r.2| == |wakes| ==> r.0 == buf && r.1 == index + 1
    ensures !r.3.Item? && wakes != [] ==> |r.2| < |wakes|
    decreases |wakes|, 1
  {
    if index < |buf| then (buf, index + 1, wakes, Item(buf[index])) else AwaitRaw(wakes)
  }

  // The inner loop, entered with the buffer cleared and the index at 0.
  function AwaitRaw(wakes: seq<Wake>): (r: (seq<InputEvent>, nat, seq<Wake>, Poll))
    ensures r.1 <= |r.0| && |r.2| <= |wakes| && (wakes != [] ==> |r.2| < |wakes|)
    ensures r.3.Item? ==> |r.2| < |wakes|
    decreases |wakes|, 0
  {
    if wakes == [] then ([], 0, [], Pending)
    else match wakes[0]
      case NotReady => ([], 0, wakes[1..], Pending)
      case ReadyFailed(err) => ([], 0, wakes[1..], Failed(err))
      case Ready(reply) =>
        match reply.read
        case Success(chunk) => PollRaw(chunk, 0, wakes[1..])
        case Failure(err) => if err == EAGAIN then AwaitRaw(wakes[1..]) else ([], 0, wakes[1..], Failed(err))
  }

  function RunRaw(buf: seq<InputEvent>, index: nat, wakes: seq<Wake>): (r: (seq<InputEvent>, nat, seq<InputEvent>))
    requires index <= |buf|
    ensures r.1 <= |r.0|
    decreases |wakes|, |buf| - index
  {
    var (buf', index', rest, p) := PollRaw(buf, index, wakes);
    if p.Item? then var (b, i, more) := RunRaw(buf', index', rest); (b, i, [p.ev] + more)
    else if rest == [] then (buf', index', [])
    else RunRaw(buf', index', rest)
  }

  function RawChunks(wakes: seq<Wake>): seq<InputEvent> {
    if wakes == [] then []
    else
      (if wakes[0].Ready? && wakes[0].reply.read.Success? then wakes[0].reply.read.value else [])
      + RawChunks(wakes[1..])
  }

  /**
   * The raw stream delivers every event read, SYN_DROPPED included, once and in order, for any
   * number and placement of pending polls and failures.
   */
  lemma {:induction false} RawDeliversEverything(buf: seq<InputEvent>, index: nat, wakes: seq<Wake>)
    requires index <= |buf|
    ensures var (b, i, out) := RunRaw(buf, index, wakes); out + b[i..] == buf[index..] + RawChunks(wakes)
    decreases |wakes|, |buf| - index, 1
  {
    if index < |buf| {
      RawDeliversEverything(buf, index + 1, wakes);
      var (b, i, out) := RunRaw(buf, index + 1, wakes);
      HeadAt(buf, index);
      Associative([buf[index]], out, b[i..]);
      Associative([buf[index]], buf[index + 1..], RawChunks(wakes));
    } else {
      WaitingDeliversEverything(wakes);
      assert buf[index..] == [];
      assert [] + RawChunks(wakes) == RawChunks(wakes);
    }
  }

  // What a run does with the outcome of one poll.
  function ContinueRaw(t: (seq<InputEvent>, nat, seq<Wake>, Poll)): (seq<InputEvent>, nat, seq<InputEvent>)
    requires t.1 <= |t.0|
  {
    if t.3.Item? then var (b, i, more) := RunRaw(t.0, t.1, t.2); (b, i, [t.3.ev] + more)
    else if t.2 == [] then (t.0, t.1, [])
    else RunRaw(t.0, t.1, t.2)
  }

  lemma RunContinues(buf: seq<InputEvent>, index: nat, wakes: seq<Wake>)
    requires index <= |buf|
    ensures RunRaw(buf, index, wakes) == ContinueRaw(PollRaw(buf, index, wakes))
  {
  }

  lemma {:induction false} WaitingDeliversEverything(wakes: seq<Wake>)
    ensures var (b, i, out) := ContinueRaw(AwaitRaw(wakes)); out + b[i..] == RawChunks(wakes)
    decreases |wakes|, 0, 0
  {
    if wakes == [] {
    } else {
      hide RunRaw;
      var rest := wakes[1..];
      if wakes[0].Ready? && wakes[0].reply.read.Success? {
        var chunk := wakes[0].reply.read.value;
        RawDeliversEverything(chunk, 0, rest);
        assert chunk[0..] == chunk;
        RunContinues(chunk, 0, rest);
      } else {
        WaitingDeliversEverything(rest);
        assert [] + RawChunks(rest) == RawChunks(rest);
        RunContinues([], 0, rest);
      }
    }
  }

  // A wake-up that ends no poll: the read would block or brings nothing.
  predicate Fruitless(wake: Wake) {
    wake.Ready? && (wake.reply.read == Failure(EAGAIN) || wake.reply.read == Success([]))
  }

  predicate FirstFruitful(wakes: seq<Wake>, k: nat) {
    && k <= |wakes|
    && (forall j | 0 <= j < k :: Fruitless(wakes[j]))
    && (k < |wakes| ==> !Fruitless(wakes[k]))
  }

  predicate WakeFails(wake: Wake, x: Errno) {
    wake == ReadyFailed(x) || (wake.Ready? && wake.reply.read == Failure(x))
  }

  // What a poll that finds the buffer used up answers, told by the wake-ups alone.
  ghost predicate RawAnswer(wakes: seq<Wake>, k: nat, t: (seq<InputEvent>, nat, seq<Wake>, Poll))
    requires k <= |wakes|
  {
    && t.2 == (if k < |wakes| then wakes[k + 1..] else [])
    && (t.3.Pending? <==> k == |wakes| || wakes[k].NotReady?)
    && (forall x :: t.3 == Failed(x) <==> k < |wakes| && WakeFails(wakes[k], x))
    && (t.3.Item? <==> k < |wakes| && wakes[k].Ready? && wakes[k].reply.read.Success?)
    && (t.3.Item? ==> wakes[k].reply.read == Success(t.0) && t.0 != [] && t.1 == 1 && t.3.ev == t.0[0])
    && (!t.3.Item? ==> t.0 == [] && t.1 == 0)
  }

  lemma {:induction false} AwaitRawAnswers(wakes: seq<Wake>, k: nat)
    requires FirstFruitful(wakes, k)
    ensures RawAnswer(wakes, k, AwaitRaw(wakes))
  {
    if wakes == [] {
    } else if k == 0 {
    } else {
      assert Fruitless(wakes[0]);
      AwaitRawAnswers(wakes[1..], k - 1);
    }
  }

  /**
   * What a poll of the raw stream answers. A buffered event comes first and costs no wake-up.
   * Otherwise the first wake-up that is not fruitless decides: its events, its error, whatever
   * errno that is, or Pending; and Pending too when there is none.
   */
  lemma RawPollAnswers(buf: seq<InputEvent>, index: nat, wakes: seq<Wake>, k: nat)
    requires index <= |buf| && FirstFruitful(wakes, k)
    ensures var t := PollRaw(buf, index, wakes);
      && (index < |buf| ==> t == (buf, index + 1, wakes, Item(buf[index])))
      && (index == |buf| ==> RawAnswer(wakes, k, t))
  {
    AwaitRawAnswers(wakes, k);
  }

  class RawEventStream {
    const dev: RawDevice
    var index: nat

    constructor (dev: RawDevice)
      ensures this.dev == dev && index == 0
    {
      this.dev := dev;
      index := 0;
    }

    method PollEvent(wakes: seq<Wake>) returns (rest: seq<Wake>, p: Poll)
      requires index <= |dev.eventBuf|
      modifies this, dev
      ensures (dev.eventBuf, index, rest, p) == PollRaw(old(dev.eventBuf), old(index), wakes)
    {
      rest := wakes;
      ghost var goal := PollRaw(dev.eventBuf, index, wakes);
      while true
        invariant index <= |dev.eventBuf| && PollRaw(dev.eventBuf, index, rest) == goal
        decreases |rest|
      {
        if index < |dev.eventBuf| {
          p := Item(dev.eventBuf[index]);
          index := index + 1;
          return;
        }
        dev.eventBuf := [];
        index := 0;
        var before := |rest|;
        var filled := false;
        while !filled
          invariant |rest| <= before && index == 0
          invariant !filled ==> dev.eventBuf == [] && AwaitRaw(rest) == goal
          invariant filled ==> |rest| < before && PollRaw(dev.eventBuf, 0, rest) == goal
          decreases |rest|, if filled then 0 else 1
        {
          if rest == [] { return [], Pending; }
          var wake := rest[0];
          rest := rest[1..];
          match wake {
            case NotReady => return rest, Pending;
            case ReadyFailed(err) => return rest, Failed(err);
            case Ready(reply) =>
              var res := dev.FillEvents(reply.read);
              match res {
                case Success(_) =>
                  assert [] + reply.read.value == reply.read.value;
                  filled := true;
                case Failure(err) => if err != EAGAIN { return rest, Failed(err); }
              }
          }
        }
      }
    }
  }
}
