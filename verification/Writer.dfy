/**
 * Writing events: `fd_write_all`, and `VirtualDevice::emit` as the encoder the synchronous
 * reader undoes.
 */
module Writer {
  import opened Batches
  import opened DeviceState
  import opened Drivers
  import opened Engine
  import opened Events
  import opened Frames
  import opened Sequences
  import opened Wire
  import opened Wrappers

  // The kernel's answer to one write: it took up to n bytes, or failed.
  datatype WriteReply = Took(n: nat) | Refused(err: Errno)

  // A file descriptor: what it has received, and the answers the kernel will give. Once they
  // run out every write is taken whole, which is what makes the loop end.
  class Fd {
    var sink: seq<byte>
    var answers: seq<WriteReply>

    constructor (answers: seq<WriteReply>)
      ensures sink == [] && this.answers == answers
    {
      sink := [];
      this.answers := answers;
    }

    // `nix::unistd::write`
    method Write(data: seq<byte>) returns (r: Result<nat, Errno>)
      modifies this
      ensures (r, answers) == OneWrite(data, old(answers))
      ensures r.Success? ==> r.value <= |data| && sink == old(sink) + data[..r.value]
      ensures r.Failure? ==> sink == old(sink)
    {
      if answers == [] {
        r := Success(|data|);
        sink := sink + data;
        assert data[..|data|] == data;
      } else {
        var a := answers[0];
        answers := answers[1..];
        match a {
          case Refused(err) => r := Failure(err);
          case Took(n) =>
            var taken := if n <= |data| then n else |data|;
            sink := sink + data[..taken];
            r := Success(taken);
        }
      }
    }
  }

  function OneWrite(data: seq<byte>, answers: seq<WriteReply>): (Result<nat, Errno>, seq<WriteReply>) {
    if answers == [] then (Success(|data|), [])
    else match answers[0]
      case Refused(err) => (Failure(err), answers[1..])
      case Took(n) => (Success(if n <= |data| then n else |data|), answers[1..])
  }

  // How a whole `fd_write_all` ends: bytes written, the result, and the answers left over.
  function WriteAll(data: seq<byte>, answers: seq<WriteReply>): (r: (nat, Result<(), Errno>, seq<WriteReply>))
    ensures r.0 <= |data|
    decreases |answers|, |data|
  {
    var (one, rest) := OneWrite(data, answers);
    match one
    case Failure(err) => if err == EINTR then WriteAll(data, rest) else (0, Failure(err), rest)
    case Success(n) =>
      if n == 0 then (0, Success(()), rest)
      else var (m, res, left) := WriteAll(data[n..], rest); (n + m, res, left)
  }

  // Bytes the kernel offers to take in a stretch of answers.
  function Offered(answers: seq<WriteReply>): nat {
    if answers == [] then 0 else (if answers[0].Took? then answers[0].n else 0) + Offered(answers[1..])
  }

  // Answers after which the loop goes on: interruptions and writes that took something.
  predicate KeepsGoing(answers: seq<WriteReply>) {
    forall i | 0 <= i < |answers| :: answers[i] == Refused(EINTR) || (answers[i].Took? && answers[i].n > 0)
  }

  // The k-th answer takes nothing while some of the `size` bytes are still unwritten.
  predicate StarvedAt(size: nat, answers: seq<WriteReply>, k: nat) {
    k < |answers| && answers[k] == Took(0) && KeepsGoing(answers[..k]) && Offered(answers[..k]) < size
  }

  ghost predicate Starved(size: nat, answers: seq<WriteReply>) {
    exists k: nat {:trigger StarvedAt(size, answers, k)} :: StarvedAt(size, answers, k)
  }

  lemma KeepsGoingCons(first: WriteReply, rest: seq<WriteReply>)
    ensures KeepsGoing([first] + rest) <==> KeepsGoing([first]) && KeepsGoing(rest)
  {
    var all := [first] + rest;
    assert forall i | 0 <= i < |rest| :: rest[i] == all[i + 1];
    assert all[0] == first;
  }

  lemma StarvedAtShift(size: nat, answers: seq<WriteReply>, k: nat)
    requires answers != [] && KeepsGoing(answers[..1]) && 0 < k < |answers|
    ensures var taken := Offered(answers[..1]);
      StarvedAt(size, answers, k) <==> taken < size && StarvedAt(size - taken, answers[1..], k - 1)
  {
    var rest := answers[1..];
    assert answers[..k][1..] == rest[..k - 1];
    assert answers[..1] == [answers[0]];
    KeepsGoingCons(answers[0], rest[..k - 1]);
    assert answers[..k] == [answers[0]] + rest[..k - 1];
  }

  /** Whether a write starves can be read off after its first answer. */
  lemma StarvedShift(size: nat, answers: seq<WriteReply>)
    requires answers != [] && KeepsGoing(answers[..1])
    ensures var taken := Offered(answers[..1]);
      Starved(size, answers) <==> taken < size && Starved(size - taken, answers[1..])
  {
    var taken, rest := Offered(answers[..1]), answers[1..];
    assert answers[..1][0] == answers[0];
    if Starved(size, answers) {
      var k: nat :| StarvedAt(size, answers, k);
      assert k != 0;
      StarvedAtShift(size, answers, k);
    }
    if taken < size && Starved(size - taken, rest) {
      var k: nat :| StarvedAt(size - taken, rest, k);
      StarvedAtShift(size, answers, k + 1);
    }
  }

  /**
   * When `fd_write_all` reports success, everything was written if and only if no write was
   * answered with 0 bytes while data was left. The 0 that normally answers the closing empty
   * write does no harm. A failure is one the kernel gave, and never EINTR.
   */
  lemma {:induction false} SuccessMeansWrittenIff(data: seq<byte>, answers: seq<WriteReply>)
    ensures var (n, res, rest) := WriteAll(data, answers);
      && (res.Success? ==> (n == |data| <==> !Starved(|data|, answers)))
      && (res.Failure? ==> res.error != EINTR && Refused(res.error) in answers)
    decreases |answers|, |data|
  {
    var (one, rest) := OneWrite(data, answers);
    if answers == [] {
      if data != [] { SuccessMeansWrittenIff([], []); }
    } else {
      assert answers[..1] == [answers[0]];
      assert Offered([answers[0]]) == if answers[0].Took? then answers[0].n else 0;
      if one == Failure(EINTR) {
        SuccessMeansWrittenIff(data, rest);
        StarvedShift(|data|, answers);
      } else if one.Success? && one.value > 0 {
        SuccessMeansWrittenIff(data[one.value..], rest);
        StarvedShift(|data|, answers);
      } else if one.Success? && data != [] {
        assert StarvedAt(|data|, answers, 0);
      }
    }
  }

  // The loop goes on after the j-th answer: an interruption, or a write that took some of what
  // was left.
  predicate Continues(size: nat, answers: seq<WriteReply>, j: nat) {
    j < |answers| &&
    (answers[j] == Refused(EINTR) || (answers[j].Took? && answers[j].n > 0 && Offered(answers[..j]) < size))
  }

  // The first answer after which it does not, or the end of the answers.
  predicate LastAnswer(size: nat, answers: seq<WriteReply>, k: nat) {
    && k <= |answers|
    && (forall j: nat | j < k :: Continues(size, answers, j))
    && !Continues(size, answers, k)
  }

  // There always is one.
  lemma {:induction false} SomeAnswerIsLast(size: nat, answers: seq<WriteReply>, from: nat) returns (k: nat)
    requires from <= |answers| && forall j: nat | j < from :: Continues(size, answers, j)
    ensures LastAnswer(size, answers, k)
    decreases |answers| - from
  {
    if !Continues(size, answers, from) {
      k := from;
    } else {
      k := SomeAnswerIsLast(size, answers, from + 1);
    }
  }

  lemma ContinuesShift(size: nat, answers: seq<WriteReply>, left: nat, j: nat)
    requires Continues(size, answers, 0) && 0 < j
    requires left as int == if Offered(answers[..1]) <= size then size - Offered(answers[..1]) else 0
    ensures Continues(size, answers, j) <==> Continues(left, answers[1..], j - 1)
    ensures j <= |answers| ==> Offered(answers[..j]) == Offered(answers[..1]) + Offered(answers[1..][..j - 1])
  {
    if j <= |answers| {
      assert answers[..j][1..] == answers[1..][..j - 1];
      assert answers[..1] == [answers[0]];
    }
  }

  /**
   * How `fd_write_all` ends, told by the answers alone. It stops at the first answer that is
   * neither EINTR nor some of the bytes still left: a failure if the kernel refused there, with
   * the kernel's errno, else success. What was taken before that answer is written, and no later
   * answer is asked for.
   */
  lemma {:induction false} WriteAllOutcome(data: seq<byte>, answers: seq<WriteReply>, k: nat)
    requires LastAnswer(|data|, answers, k)
    ensures var (n, res, rest) := WriteAll(data, answers);
      && n == (if k < |answers| && Offered(answers[..k]) < |data| then Offered(answers[..k]) else |data|)
      && rest == (if k < |answers| then answers[k + 1..] else [])
      && (forall x :: res == Failure(x) <==> k < |answers| && answers[k] == Refused(x))
    decreases |answers|, |data|
  {
    if answers == [] {
      if data != [] { WriteAllOutcome([], [], 0); }
    } else if k == 0 {
      assert answers[..0] == [];
    } else {
      assert Continues(|data|, answers, 0);
      var (one, rest) := OneWrite(data, answers);
      var more := if one.Success? then data[one.value..] else data;
      assert answers[..1] == [answers[0]];
      assert Offered([answers[0]]) == if answers[0].Took? then answers[0].n else 0;
      forall j: nat | 0 < j <= k
        ensures Continues(|data|, answers, j) <==> Continues(|more|, rest, j - 1)
        ensures Offered(answers[..j]) == Offered(answers[..1]) + Offered(rest[..j - 1])
      {
        ContinuesShift(|data|, answers, |more|, j);
      }
      LastAnswerShift(|data|, answers, |more|, k);
      WriteAllOutcome(more, rest, k - 1);
    }
  }

  lemma LastAnswerShift(size: nat, answers: seq<WriteReply>, left: nat, k: nat)
    requires LastAnswer(size, answers, k) && k > 0
    requires left as int == if Offered(answers[..1]) <= size then size - Offered(answers[..1]) else 0
    ensures LastAnswer(left, answers[1..], k - 1)
  {
    forall j: nat | j < k ensures Continues(size, answers, j + 1) <==> Continues(left, answers[1..], j) {
      ContinuesShift(size, answers, left, j + 1);
    }
  }

  /**
   * So success alone promises nothing: for every proper prefix of any data there are answers
   * under which `fd_write_all` reports success with exactly that prefix written.
   */
  lemma AnyProperPrefixCanReportSuccess(data: seq<byte>, k: nat)
    requires k < |data|
    ensures var answers := if k == 0 then [Took(0)] else [Took(k), Took(0)];
      var (n, res, rest) := WriteAll(data, answers); n == k && res.Success?
  {
    if k > 0 {
      assert [Took(k), Took(0)][1..] == [Took(0)];
      assert WriteAll(data[k..], [Took(0)]) == (0, Success(()), []);
    }
  }

  /** The sink always holds a prefix of the data, in order, nothing repeated or skipped. */
  method FdWriteAll(fd: Fd, bytes: seq<byte>) returns (r: Result<(), Errno>)
    modifies fd
    ensures var (n, res, rest) := WriteAll(bytes, old(fd.answers));
      r == res && fd.answers == rest && fd.sink == old(fd.sink) + bytes[..n]
  {
    var data := bytes;
    ghost var done: nat := 0;
    ghost var goal := WriteAll(bytes, fd.answers);
    assert bytes[..0] == [];
    while true
      invariant done <= |bytes| && data == bytes[done..]
      invariant fd.sink == old(fd.sink) + bytes[..done]
      invariant goal.0 == done + WriteAll(data, fd.answers).0
      invariant goal.1 == WriteAll(data, fd.answers).1 && goal.2 == WriteAll(data, fd.answers).2
      decreases |fd.answers|, |data|
    {
      var w := fd.Write(data);
      match w {
        case Success(n) =>
          SinkGrows(old(fd.sink), bytes, done, n);
          if n == 0 { return Success(()); }
          data := data[n..];
          done := done + n;
        case Failure(err) =>
          if err != EINTR { return Failure(err); }
      }
    }
  }

  lemma SinkGrows(sink: seq<byte>, bytes: seq<byte>, k: nat, n: nat)
    requires k + n <= |bytes|
    ensures (sink + bytes[..k]) + bytes[k..][..n] == sink + bytes[..k + n]
    ensures bytes[k..][n..] == bytes[k + n..]
  {
  }

  /** A uinput device writing through its file descriptor. */
  class VirtualDevice {
    const fd: Fd

    constructor (fd: Fd)
      ensures this.fd == fd
    {
      this.fd := fd;
    }

    method WriteRaw(events: seq<InputEvent>) returns (r: Result<(), Errno>)
      modifies fd
      ensures var (n, res, rest) := WriteAll(Encode(events), old(fd.answers));
        r == res && fd.answers == rest && fd.sink == old(fd.sink) + Encode(events)[..n]
      ensures r.Success? ==>
        (fd.sink == old(fd.sink) + Encode(events) <==> !Starved(|Encode(events)|, old(fd.answers)))
    {
      SuccessMeansWrittenIff(Encode(events), fd.answers);
      WholeIff(fd.sink, Encode(events), WriteAll(Encode(events), fd.answers).0);
      r := FdWriteAll(fd, Encode(events));
    }

    /**
     * `emit`: the batch, then its SYN_REPORT. An error in the first write leaves the second out,
     * and unless the first write is starved nothing but a prefix of the framed batch is added.
     */
    method Emit(events: seq<InputEvent>) returns (r: Result<(), Errno>)
      modifies fd
      ensures var (n, first, rest) := WriteAll(Encode(events), old(fd.answers));
        && (first.Failure? ==>
              r == first && fd.answers == rest && fd.sink == old(fd.sink) + Encode(events)[..n])
        && (first.Success? ==>
              var (m, second, left) := WriteAll(Encode([SYN]), rest);
              && r == second && fd.answers == left
              && fd.sink == old(fd.sink) + (Encode(events)[..n] + Encode([SYN])[..m]))
      ensures old(fd.sink) <= fd.sink
      ensures !Starved(|Encode(events)|, old(fd.answers)) ==> fd.sink <= old(fd.sink) + Encode(events + [SYN])
      ensures var (bytes, res, rest) := EmitOnto(events, old(fd.answers));
        r == res && fd.answers == rest && fd.sink == old(fd.sink) + bytes
      ensures r.Success? ==>
        (fd.sink == old(fd.sink) + Encode(Framed([events])) <==> FedThroughout(events, old(fd.answers)))
    {
      EmitWholeIff(events, fd.answers);
      ghost var n := WriteAll(Encode(events), fd.answers).0;
      ghost var bytes := EmitOnto(events, fd.answers).0;
      SameTail(fd.sink, bytes, Encode(Framed([events])));
      if !Starved(|Encode(events)|, fd.answers) {
        EmitIsPrefix(events, fd.answers);
        PrefixOnto(fd.sink, bytes, Encode(events + [SYN]));
      }
      var first := WriteRaw(events);
      if first.Failure? { return first; }
      ghost var m := WriteAll(Encode([SYN]), fd.answers).0;
      Associative(old(fd.sink), Encode(events)[..n], Encode([SYN])[..m]);
      r := WriteRaw([SYN]);
    }

    // A caller posting batches one after another, stopping at the first error.
    method EmitEach(batches: seq<seq<InputEvent>>) returns (r: Result<(), Errno>)
      modifies fd
      ensures old(fd.sink) <= fd.sink
      ensures FedUntilStop(batches, old(fd.answers)) ==> fd.sink <= old(fd.sink) + Encode(Framed(batches))
      ensures var (bytes, res, rest) := EmitEachOnto(batches, old(fd.answers));
        r == res && fd.answers == rest && fd.sink == old(fd.sink) + bytes
      ensures r.Success? ==>
        (fd.sink == old(fd.sink) + Encode(Framed(batches)) <==> FedForAll(batches, old(fd.answers)))
    {
      ghost var goal := EmitEachOnto(batches, fd.answers);
      EmitEachWholeIff(batches, fd.answers);
      SameTail(fd.sink, goal.0, Encode(Framed(batches)));
      if FedUntilStop(batches, fd.answers) {
        EmitEachIsPrefix(batches, fd.answers);
        PrefixOnto(fd.sink, goal.0, Encode(Framed(batches)));
      }
      ghost var sent: seq<byte> := [];
      EmptyUnit(goal.0);
      EmptyUnit(fd.sink);
      for i := 0 to |batches|
        invariant fd.sink == old(fd.sink) + sent
        invariant var now := EmitEachOnto(batches[i..], fd.answers);
          goal.0 == sent + now.0 && goal.1 == now.1 && goal.2 == now.2
      {
        ghost var bytes := EmitOnto(batches[i], fd.answers).0;
        ghost var later := EmitEachOnto(batches[i + 1..], EmitOnto(batches[i], fd.answers).2).0;
        assert batches[i..][1..] == batches[i + 1..];
        Associative(sent, bytes, later);
        Associative(old(fd.sink), sent, bytes);
        var one := Emit(batches[i]);
        if one.Failure? { return one; }
        sent := sent + bytes;
      }
      assert batches[|batches|..] == [];
      EmptyUnit(sent);
      r := Success(());
    }
  }

  lemma SameTail<T>(a: seq<T>, b: seq<T>, c: seq<T>)
    ensures a + b == a + c <==> b == c
  {
    if a + b == a + c {
      assert (a + b)[|a|..] == b && (a + c)[|a|..] == c;
    }
  }

  lemma WholeIff(sink: seq<byte>, bytes: seq<byte>, n: nat)
    requires n <= |bytes|
    ensures sink + bytes[..n] == sink + bytes <==> n == |bytes|
  {
    SameTail(sink, bytes[..n], bytes);
    assert bytes[..|bytes|] == bytes;
  }

  // What one `emit` adds to the sink, how it ends, and the answers left over.
  function EmitOnto(events: seq<InputEvent>, answers: seq<WriteReply>)
    : (seq<byte>, Result<(), Errno>, seq<WriteReply>)
  {
    var (n, first, rest) := WriteAll(Encode(events), answers);
    if first.Failure? then (Encode(events)[..n], first, rest)
    else
      var (m, second, left) := WriteAll(Encode([SYN]), rest);
      (Encode(events)[..n] + Encode([SYN])[..m], second, left)
  }

  // Neither of the two writes of an `emit` is starved.
  ghost predicate FedThroughout(events: seq<InputEvent>, answers: seq<WriteReply>) {
    && !Starved(|Encode(events)|, answers)
    && !Starved(|Encode([SYN])|, WriteAll(Encode(events), answers).2)
  }

  function EmitEachOnto(batches: seq<seq<InputEvent>>, answers: seq<WriteReply>)
    : (seq<byte>, Result<(), Errno>, seq<WriteReply>)
  {
    if batches == [] then ([], Success(()), answers)
    else
      var (bytes, res, rest) := EmitOnto(batches[0], answers);
      if res.Failure? then (bytes, res, rest)
      else
        var (more, last, left) := EmitEachOnto(batches[1..], rest);
        (bytes + more, last, left)
  }

  ghost predicate FedForAll(batches: seq<seq<InputEvent>>, answers: seq<WriteReply>) {
    batches == [] ||
    (FedThroughout(batches[0], answers) && FedForAll(batches[1..], EmitOnto(batches[0], answers).2))
  }

  lemma EmitIsPrefix(events: seq<InputEvent>, answers: seq<WriteReply>)
    requires !Starved(|Encode(events)|, answers)
    ensures EmitOnto(events, answers).0 <= Encode(events + [SYN])
  {
    var (n, first, rest) := WriteAll(Encode(events), answers);
    SuccessMeansWrittenIff(Encode(events), answers);
    EncodeConcat(events, [SYN]);
    CutPrefix(Encode(events), Encode([SYN]), n, WriteAll(Encode([SYN]), rest).0);
  }

  lemma CutPrefix<T>(a: seq<T>, b: seq<T>, n: nat, m: nat)
    requires n <= |a| && m <= |b|
    ensures a[..n] <= a + b
    ensures n == |a| ==> a[..n] + b[..m] <= a + b
  {
  }

  // No write is starved up to the one that fails, if one does.
  ghost predicate FedUntilStop(batches: seq<seq<InputEvent>>, answers: seq<WriteReply>) {
    batches == [] ||
    (!Starved(|Encode(batches[0])|, answers) &&
     (EmitOnto(batches[0], answers).1.Success? ==>
        FedThroughout(batches[0], answers) && FedUntilStop(batches[1..], EmitOnto(batches[0], answers).2)))
  }

  /** However many batches, and wherever an error stops them: a prefix of all of them framed. */
  lemma {:induction false} EmitEachIsPrefix(batches: seq<seq<InputEvent>>, answers: seq<WriteReply>)
    requires FedUntilStop(batches, answers)
    ensures EmitEachOnto(batches, answers).0 <= Encode(Framed(batches))
  {
    if batches == [] {
    } else {
      var (bytes, res, rest) := EmitOnto(batches[0], answers);
      FramedFirst(batches);
      FramedOne(batches[0]);
      EncodeConcat(Framed([batches[0]]), Framed(batches[1..]));
      EmitIsPrefix(batches[0], answers);
      if res.Success? {
        EmitWholeIff(batches[0], answers);
        EmitEachIsPrefix(batches[1..], rest);
      }
    }
  }

  /** Batches after one that fails change nothing: its error is the result, and they are not sent. */
  lemma {:induction false} LaterBatchesUnsent(
      batches: seq<seq<InputEvent>>, more: seq<seq<InputEvent>>, answers: seq<WriteReply>)
    requires EmitEachOnto(batches, answers).1.Failure?
    ensures EmitEachOnto(batches + more, answers) == EmitEachOnto(batches, answers)
  {
    if batches == [] {
    } else {
      FirstOfConcat(batches, more);
      var (bytes, res, rest) := EmitOnto(batches[0], answers);
      if res.Success? { LaterBatchesUnsent(batches[1..], more, rest); }
    }
  }

  lemma EmitWholeIff(events: seq<InputEvent>, answers: seq<WriteReply>)
    ensures var (bytes, res, rest) := EmitOnto(events, answers);
      && |bytes| <= |Encode(Framed([events]))|
      && (res.Success? ==> (bytes == Encode(Framed([events])) <==> FedThroughout(events, answers)))
      && (res.Success? && bytes != Encode(Framed([events])) ==> |bytes| < |Encode(Framed([events]))|)
  {
    var e, s := Encode(events), Encode([SYN]);
    var (n, first, rest) := WriteAll(e, answers);
    var (m, second, left) := WriteAll(s, rest);
    SuccessMeansWrittenIff(e, answers);
    SuccessMeansWrittenIff(s, rest);
    FramedOne(events);
    EncodeConcat(events, [SYN]);
    assert e[..|e|] == e && s[..|s|] == s;
  }

  lemma {:induction false} EmitEachWholeIff(batches: seq<seq<InputEvent>>, answers: seq<WriteReply>)
    ensures var (bytes, res, rest) := EmitEachOnto(batches, answers);
      && |bytes| <= |Encode(Framed(batches))|
      && (res.Success? ==> (bytes == Encode(Framed(batches)) <==> FedForAll(batches, answers)))
      && (res.Success? && bytes != Encode(Framed(batches)) ==> |bytes| < |Encode(Framed(batches))|)
  {
    if batches == [] {
    } else {
      var (bytes, res, rest) := EmitOnto(batches[0], answers);
      EmitWholeIff(batches[0], answers);
      EmitEachWholeIff(batches[1..], rest);
      FramedFirst(batches);
      EncodeConcat(Framed([batches[0]]), Framed(batches[1..]));
    }
  }

  lemma FramedFirst(batches: seq<seq<InputEvent>>)
    requires batches != []
    ensures Framed(batches) == Framed([batches[0]]) + Framed(batches[1..])
  {
    FramedOne(batches[0]);
  }

  const SYN := Report(UNIX_EPOCH)

  // Batches with the SYN_REPORT `emit` puts after each.
  function Framed(batches: seq<seq<InputEvent>>): seq<InputEvent> {
    if batches == [] then [] else batches[0] + [SYN] + Framed(batches[1..])
  }

  lemma FramedOne(events: seq<InputEvent>)
    ensures Framed([events]) == events + [SYN]
  {
    assert [events][1..] == [];
    assert events + [SYN] + [] == events + [SYN];
  }

  // The batches back from a stream, cut at its SYN_REPORTs.
  function Unframed(s: seq<InputEvent>): seq<seq<InputEvent>>
    decreases |s|
  {
    var k := FirstReport(s);
    if k == |s| then [] else [s[..k]] + Unframed(s[k + 1..])
  }

  predicate Plain(batches: seq<seq<InputEvent>>) {
    forall i | 0 <= i < |batches| :: NoReport(batches[i]) && !Damaged(batches[i])
  }

  lemma {:induction false} FramedIsClean(batches: seq<seq<InputEvent>>)
    requires Plain(batches)
    ensures AtBoundary(Framed(batches)) && !Damaged(Framed(batches))
  {
    if batches == [] {
    } else {
      FramedIsClean(batches[1..]);
      OneFramed(batches[0]);
      JoinFrames(batches[0] + [SYN], Framed(batches[1..]));
    }
  }

  /** The batches can be read off the framed stream again. */
  lemma {:induction false} UnframedFramed(batches: seq<seq<InputEvent>>)
    requires Plain(batches)
    ensures Unframed(Framed(batches)) == batches
  {
    if batches == [] {
      NoReportOutputsNothing([]);
    } else {
      var rest := Framed(batches[1..]);
      UnframedFramed(batches[1..]);
      OneFramed(batches[0]);
      PeelFrame(batches[0] + [SYN], rest);
      HeadOf(batches[0], rest);
    }
  }

  lemma OneFramed(b: seq<InputEvent>)
    requires NoReport(b) && !Damaged(b)
    ensures IsFrame(b + [SYN]) && AtBoundary(b + [SYN]) && !Damaged(b + [SYN])
  {
    assert (b + [SYN])[..|b|] == b;
    DamagedConcat(b, [SYN]);
    assert !Damaged([SYN]);
  }

  lemma HeadOf(b: seq<InputEvent>, rest: seq<InputEvent>)
    ensures var s := b + [SYN] + rest; s[..|b|] == b && s[|b| + 1..] == rest
  {
  }

  /**
   * Framing round trip. The sink is the one `EmitEach` leaves when it reports success and no
   * write was starved. However the kernel cuts its bytes into reads, the synchronous reader
   * delivers exactly the emitted batches, each followed by its one SYN_REPORT, and buffers
   * nothing.
   */
  lemma FramingRoundTrip(
      fd: Fd, batches: seq<seq<InputEvent>>, answers: seq<WriteReply>, caps: Caps, replies: seq<Reply>)
    requires fd.sink == EmitEachOnto(batches, answers).0
    requires EmitEachOnto(batches, answers).1.Success? && FedForAll(batches, answers) && Plain(batches)
    requires AllPlausible(caps, replies) && Chunks(Open(caps), replies) == Decode(fd.sink)
    ensures var (e, out) := RunSync(Open(caps), replies);
      && Flatten(out) == Framed(batches)
      && Unframed(Flatten(out)) == batches
      && e.buf == []
  {
    var stream := Framed(batches);
    EmitEachWholeIff(batches, answers);
    EmptyUnit(Encode(stream));
    DecodeEncode(stream, []);
    FramedIsClean(batches);
    UnframedFramed(batches);
    EmptyUnit(stream);
    UndamagedStream(Open(caps), replies);
    CleanFixedPoint(stream);
    AppendAtBoundary(stream, []);
    NoReportOutputsNothing([]);
  }
}
