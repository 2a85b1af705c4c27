/** Frames of an event stream: the events up to and including a SYN_REPORT. */
module Frames {
  import opened Events
  import opened Sequences

  predicate NoReport(s: seq<InputEvent>) {
    forall i | 0 <= i < |s| :: !IsReport(s[i])
  }

  predicate Damaged(s: seq<InputEvent>) {
    exists i | 0 <= i < |s| :: IsDropped(s[i])
  }

  // Nothing of an unfinished frame precedes the end of `s`.
  predicate AtBoundary(s: seq<InputEvent>) {
    s == [] || IsReport(s[|s| - 1])
  }

  predicate IsFrame(s: seq<InputEvent>) {
    s != [] && NoReport(s[..|s| - 1]) && IsReport(s[|s| - 1])
  }

  /** Index of the first SYN_REPORT, or |s| when there is none. */
  function FirstReport(s: seq<InputEvent>): (r: nat)
    ensures r <= |s|
    ensures NoReport(s[..r])
    ensures r < |s| ==> IsReport(s[r])
  {
    if s == [] || IsReport(s[0]) then 0
    else
      var r := 1 + FirstReport(s[1..]);
      assert s[..r] == [s[0]] + s[1..][..r - 1];
      r
  }

  // The complete frames that hold no SYN_DROPPED, in order.
  function Clean(s: seq<InputEvent>): seq<InputEvent>
    decreases |s|
  {
    var k := FirstReport(s);
    if k == |s| then [] else FrameOutput(s[..k + 1]) + Clean(s[k + 1..])
  }

  function FrameOutput(frame: seq<InputEvent>): seq<InputEvent> {
    if Damaged(frame) then [] else frame
  }

  // The complete frames that hold a SYN_DROPPED, in order.
  function DamagedPart(s: seq<InputEvent>): seq<InputEvent>
    decreases |s|
  {
    var k := FirstReport(s);
    if k == |s| then [] else (if Damaged(s[..k + 1]) then s[..k + 1] else []) + DamagedPart(s[k + 1..])
  }

  // How many complete frames hold a SYN_DROPPED.
  function CountDamaged(s: seq<InputEvent>): nat
    decreases |s|
  {
    var k := FirstReport(s);
    if k == |s| then 0 else (if Damaged(s[..k + 1]) then 1 else 0) + CountDamaged(s[k + 1..])
  }

  // The unfinished frame at the end of `s`.
  function Tail(s: seq<InputEvent>): seq<InputEvent>
    decreases |s|
  {
    var k := FirstReport(s);
    if k == |s| then s else Tail(s[k + 1..])
  }

  // What one batch delivers: the clean frames before the first damaged or unfinished one.
  function BatchOutput(s: seq<InputEvent>): seq<InputEvent>
    decreases |s|
  {
    var k := FirstReport(s);
    if k == |s| || Damaged(s[..k + 1]) then [] else s[..k + 1] + BatchOutput(s[k + 1..])
  }

  // How many buffered events one batch uses up, the damaged frame that ends it included.
  function BatchEnd(s: seq<InputEvent>): (end: nat)
    ensures end <= |s|
    decreases |s|
  {
    var k := FirstReport(s);
    if k == |s| then 0
    else if Damaged(s[..k + 1]) then k + 1
    else k + 1 + BatchEnd(s[k + 1..])
  }

  // Whether a damaged frame ends the batch.
  predicate BatchHitsDamage(s: seq<InputEvent>)
    decreases |s|
  {
    var k := FirstReport(s);
    k < |s| && (Damaged(s[..k + 1]) || BatchHitsDamage(s[k + 1..]))
  }

  lemma FirstReportUnique(s: seq<InputEvent>, k: nat)
    requires k <= |s| && NoReport(s[..k]) && (k < |s| ==> IsReport(s[k]))
    ensures FirstReport(s) == k
  {
    var r := FirstReport(s);
    assert forall i | 0 <= i < k :: !IsReport(s[i]) by {
      assert forall i | 0 <= i < k :: s[i] == s[..k][i];
    }
    assert forall i | 0 <= i < r :: !IsReport(s[i]) by {
      assert forall i | 0 <= i < r :: s[i] == s[..r][i];
    }
  }

  /** Every function above peels one frame off the front. */
  lemma PeelFrame(f: seq<InputEvent>, rest: seq<InputEvent>)
    requires IsFrame(f)
    ensures FirstReport(f + rest) == |f| - 1
    ensures (f + rest)[..|f|] == f && (f + rest)[|f|..] == rest
    ensures Clean(f + rest) == FrameOutput(f) + Clean(rest)
    ensures CountDamaged(f + rest) == (if Damaged(f) then 1 else 0) + CountDamaged(rest)
    ensures Tail(f + rest) == Tail(rest)
    ensures Damaged(f) ==>
      BatchOutput(f + rest) == [] && BatchEnd(f + rest) == |f| && BatchHitsDamage(f + rest)
    ensures !Damaged(f) ==>
      && BatchOutput(f + rest) == f + BatchOutput(rest)
      && BatchEnd(f + rest) == |f| + BatchEnd(rest)
      && BatchHitsDamage(f + rest) == BatchHitsDamage(rest)
  {
    var s := f + rest;
    assert s[..|f| - 1] == f[..|f| - 1];
    FirstReportUnique(s, |f| - 1);
    assert s[..|f|] == f && s[|f|..] == rest;
  }

  lemma NoReportOutputsNothing(s: seq<InputEvent>)
    requires NoReport(s)
    ensures FirstReport(s) == |s|
    ensures Clean(s) == [] && Tail(s) == s && CountDamaged(s) == 0
    ensures BatchOutput(s) == [] && BatchEnd(s) == 0 && !BatchHitsDamage(s)
  {
    assert s[..|s|] == s;
    FirstReportUnique(s, |s|);
  }

  /** The front frame of a stream that holds a SYN_REPORT. */
  lemma FrontFrame(s: seq<InputEvent>) returns (f: seq<InputEvent>, rest: seq<InputEvent>)
    requires !NoReport(s)
    ensures s == f + rest && IsFrame(f) && |rest| < |s|
  {
    var k := FirstReport(s);
    assert s[..|s|] == s;
    f, rest := s[..k + 1], s[k + 1..];
    assert f[..|f| - 1] == s[..k];
  }

  lemma CleanFrame(f: seq<InputEvent>)
    requires IsFrame(f)
    ensures FirstReport(f) == |f| - 1 && Tail(f) == [] && Clean(f) == FrameOutput(f)
    ensures CountDamaged(f) == if Damaged(f) then 1 else 0
  {
    NoReportOutputsNothing([]);
    PeelFrame(f, []);
    assert f + [] == f;
  }

  lemma AtBoundaryConcat(a: seq<InputEvent>, b: seq<InputEvent>)
    requires AtBoundary(b)
    ensures b != [] || AtBoundary(a) ==> AtBoundary(a + b)
  {
    if b == [] { assert a + b == a; }
  }

  lemma AtBoundaryRest(f: seq<InputEvent>, rest: seq<InputEvent>)
    requires AtBoundary(f + rest)
    ensures AtBoundary(rest)
  {
    assert rest != [] ==> (f + rest)[|f + rest| - 1] == rest[|rest| - 1];
  }

  lemma {:induction false} AppendAtBoundary(a: seq<InputEvent>, b: seq<InputEvent>)
    requires AtBoundary(a)
    ensures Clean(a + b) == Clean(a) + Clean(b)
    ensures CountDamaged(a + b) == CountDamaged(a) + CountDamaged(b)
    ensures Tail(a + b) == Tail(b)
    decreases |a|
  {
    if NoReport(a) {
      assert a == [];
      assert a + b == b;
      NoReportOutputsNothing(a);
    } else {
      var f, rest := FrontFrame(a);
      AtBoundaryRest(f, rest);
      AppendAtBoundary(rest, b);
      PeelFrame(f, rest);
      PeelFrame(f, rest + b);
      Associative(f, rest, b);
      Associative(FrameOutput(f), Clean(rest), Clean(b));
    }
  }

  lemma {:induction false} DamagedPartConcat(a: seq<InputEvent>, b: seq<InputEvent>)
    requires AtBoundary(a)
    ensures DamagedPart(a + b) == DamagedPart(a) + DamagedPart(b)
    decreases |a|
  {
    if NoReport(a) {
      NoReportOutputsNothing(a);
      assert a + b == b;
    } else {
      var f, rest := FrontFrame(a);
      AtBoundaryRest(f, rest);
      DamagedPartConcat(rest, b);
      PeelDamaged(f, rest);
      PeelDamaged(f, rest + b);
      Associative(f, rest, b);
      Associative(if Damaged(f) then f else [], DamagedPart(rest), DamagedPart(b));
    }
  }

  lemma PeelDamaged(f: seq<InputEvent>, rest: seq<InputEvent>)
    requires IsFrame(f)
    ensures DamagedPart(f + rest) == (if Damaged(f) then f else []) + DamagedPart(rest)
  {
    PeelFrame(f, rest);
  }

  lemma DamagedPartOfFrame(f: seq<InputEvent>)
    requires IsFrame(f)
    ensures DamagedPart(f) == if Damaged(f) then f else []
  {
    NoReportOutputsNothing([]);
    PeelDamaged(f, []);
    assert f + [] == f;
  }

  /** Appending one whole frame to a stream that ends at a boundary. */
  lemma AppendFrame(a: seq<InputEvent>, f: seq<InputEvent>)
    requires AtBoundary(a) && IsFrame(f)
    ensures AtBoundary(a + f)
    ensures Clean(a + f) == Clean(a) + FrameOutput(f)
    ensures CountDamaged(a + f) == CountDamaged(a) + if Damaged(f) then 1 else 0
  {
    AppendAtBoundary(a, f);
    CleanFrame(f);
  }

  lemma {:induction false} TailSplit(s: seq<InputEvent>) returns (done: seq<InputEvent>)
    ensures s == done + Tail(s) && AtBoundary(done) && NoReport(Tail(s))
    decreases |s|
  {
    if NoReport(s) {
      NoReportOutputsNothing(s);
      done := [];
    } else {
      var f, rest := FrontFrame(s);
      PeelFrame(f, rest);
      var d := TailSplit(rest);
      AtBoundaryConcat(f, d);
      done := f + d;
      Associative(f, d, Tail(rest));
    }
  }

  /**
   * Cutting a stream anywhere: what precedes the cut is delivered as it stands, and the
   * unfinished frame is carried over to what follows.
   */
  lemma CleanConcat(a: seq<InputEvent>, b: seq<InputEvent>)
    ensures Clean(a + b) == Clean(a) + Clean(Tail(a) + b)
    ensures Tail(a + b) == Tail(Tail(a) + b)
  {
    var done := TailSplit(a);
    var t := Tail(a);
    Associative(done, t, b);
    AppendAtBoundary(done, t + b);
    AppendAtBoundary(done, t);
    NoReportOutputsNothing(t);
    assert Clean(done) + [] == Clean(done);
  }

  /**
   * A batch takes whole frames from the front of the buffer: the clean ones it delivers and
   * at most one damaged one, which ends it. Otherwise only an unfinished frame is left.
   */
  lemma {:induction false} BatchSplit(s: seq<InputEvent>) returns (taken: seq<InputEvent>, left: seq<InputEvent>)
    ensures s == taken + left && |taken| == BatchEnd(s) && AtBoundary(taken)
    ensures Clean(taken) == BatchOutput(s)
    ensures CountDamaged(taken) == if BatchHitsDamage(s) then 1 else 0
    ensures !BatchHitsDamage(s) ==> NoReport(left)
    decreases |s|
  {
    if NoReport(s) {
      NoReportOutputsNothing(s);
      NoReportOutputsNothing([]);
      taken, left := [], s;
    } else {
      var f, rest := FrontFrame(s);
      PeelFrame(f, rest);
      CleanFrame(f);
      if Damaged(f) {
        taken, left := f, rest;
      } else {
        var t, l := BatchSplit(rest);
        PeelFrame(f, t);
        AtBoundaryConcat(f, t);
        Associative(f, t, l);
        taken, left := f + t, l;
      }
    }
  }

  lemma BatchTakesFrames(s: seq<InputEvent>)
    ensures AtBoundary(s[..BatchEnd(s)])
    ensures Clean(s[..BatchEnd(s)]) == BatchOutput(s)
    ensures CountDamaged(s[..BatchEnd(s)]) == if BatchHitsDamage(s) then 1 else 0
    ensures !BatchHitsDamage(s) ==> NoReport(s[BatchEnd(s)..])
  {
    var taken, left := BatchSplit(s);
    assert s[..BatchEnd(s)] == taken && s[BatchEnd(s)..] == left;
  }

  lemma DamagedConcat(a: seq<InputEvent>, b: seq<InputEvent>)
    ensures Damaged(a + b) <==> Damaged(a) || Damaged(b)
  {
    var s := a + b;
    if Damaged(a) {
      var i :| 0 <= i < |a| && IsDropped(a[i]);
      assert IsDropped(s[i]);
    }
    if Damaged(b) {
      var i :| 0 <= i < |b| && IsDropped(b[i]);
      assert IsDropped(s[|a| + i]);
    }
  }

  lemma {:induction false} UndamagedCounts(s: seq<InputEvent>)
    requires !Damaged(s)
    ensures CountDamaged(s) == 0
    decreases |s|
  {
    if NoReport(s) {
      NoReportOutputsNothing(s);
    } else {
      var f, rest := FrontFrame(s);
      DamagedConcat(f, rest);
      PeelFrame(f, rest);
      UndamagedCounts(rest);
    }
  }

  lemma {:induction false} CleanKeepsWholeFrames(s: seq<InputEvent>)
    requires AtBoundary(s) && !Damaged(s)
    ensures Clean(s) == s
    decreases |s|
  {
    if NoReport(s) {
      NoReportOutputsNothing(s);
    } else {
      var f, rest := FrontFrame(s);
      AtBoundaryRest(f, rest);
      DamagedConcat(f, rest);
      CleanKeepsWholeFrames(rest);
      PeelFrame(f, rest);
    }
  }

  lemma {:induction false} CleanIsWholeFrames(s: seq<InputEvent>)
    ensures AtBoundary(Clean(s)) && !Damaged(Clean(s))
    decreases |s|
  {
    if NoReport(s) {
      NoReportOutputsNothing(s);
    } else {
      var f, rest := FrontFrame(s);
      CleanIsWholeFrames(rest);
      PeelFrame(f, rest);
      DamagedConcat(FrameOutput(f), Clean(rest));
      AtBoundaryConcat(FrameOutput(f), Clean(rest));
    }
  }

  /**
   * The streams Clean leaves alone are exactly the concatenations of undamaged frames, and
   * Clean always produces one.
   */
  lemma CleanFixedPoint(s: seq<InputEvent>)
    ensures Clean(s) == s <==> AtBoundary(s) && !Damaged(s)
    ensures Clean(Clean(s)) == Clean(s)
  {
    CleanIsWholeFrames(s);
    CleanKeepsWholeFrames(Clean(s));
    if AtBoundary(s) && !Damaged(s) { CleanKeepsWholeFrames(s); }
  }
}
