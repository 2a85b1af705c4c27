/** The byte layout of `input_event` (64-bit, little-endian) and reading it back. */
module Wire {
  import opened Events
  import opened Sequences

  type byte = x: int | 0 <= x < 0x100

  // sec and usec of 8 bytes each, type and code of 2, value of 4.
  const EVENT_SIZE := 24

  function Pow256(n: nat): (p: nat)
    ensures p > 0
  {
    if n == 0 then 1 else 0x100 * Pow256(n - 1)
  }

  function Unsigned(x: nat, n: nat): (b: seq<byte>)
    ensures |b| == n
  {
    if n == 0 then [] else [x % 0x100] + Unsigned(x / 0x100, n - 1)
  }

  function ReadUnsigned(b: seq<byte>): nat {
    if b == [] then 0
    else
      var low: byte := b[0];
      low + 0x100 * ReadUnsigned(b[1..])
  }

  // Two's complement in n bytes.
  function Signed(x: int, n: nat): (b: seq<byte>)
    requires 0 <= Pow256(n) + x
    ensures |b| == n
  {
    if x < 0 then Unsigned(Pow256(n) + x, n) else Unsigned(x, n)
  }

  function ReadSigned(b: seq<byte>): int {
    var u := ReadUnsigned(b);
    if 2 * u >= Pow256(|b|) then u - Pow256(|b|) else u
  }

  lemma {:induction false} UnsignedRoundTrip(x: nat, n: nat)
    requires x < Pow256(n)
    ensures ReadUnsigned(Unsigned(x, n)) == x
  {
    if n == 0 {
    } else {
      UnsignedRoundTrip(x / 0x100, n - 1);
      assert Unsigned(x, n)[1..] == Unsigned(x / 0x100, n - 1);
    }
  }

  lemma SignedRoundTrip(x: int, n: nat)
    requires 0 <= Pow256(n) + 2 * x && 2 * x < Pow256(n)
    ensures 0 <= Pow256(n) + x && ReadSigned(Signed(x, n)) == x
  {
    if x < 0 { UnsignedRoundTrip(Pow256(n) + x, n); } else { UnsignedRoundTrip(x, n); }
  }

  lemma Widths()
    ensures Pow256(2) == 0x1_0000 && Pow256(4) == 0x1_0000_0000 && Pow256(8) == 0x1_0000_0000_0000_0000
  {
    assert Pow256(0) == 1;
    assert Pow256(1) == 0x100;
    assert Pow256(2) == 0x1_0000;
    assert Pow256(3) == 0x100_0000;
    assert Pow256(4) == 0x1_0000_0000;
    assert Pow256(5) == 0x100_0000_0000;
    assert Pow256(6) == 0x1_0000_0000_0000;
    assert Pow256(7) == 0x100_0000_0000_0000;
  }

  function EncodeEvent(ev: InputEvent): (b: seq<byte>)
    ensures |b| == EVENT_SIZE
  {
    Widths();
    Signed(ev.time.sec, 8) + Signed(ev.time.usec, 8) + Unsigned(ev.etype, 2) + Unsigned(ev.code, 2)
      + Signed(ev.value, 4)
  }

  // An n-byte two's complement number always lies in its range.
  lemma {:induction false} ReadUnsignedBound(b: seq<byte>)
    ensures ReadUnsigned(b) < Pow256(|b|)
  {
    if b == [] {
    } else {
      ReadUnsignedBound(b[1..]);
    }
  }

  function DecodeEvent(b: seq<byte>): InputEvent
    requires |b| == EVENT_SIZE
  {
    Widths();
    ReadUnsignedBound(b[0..8]);
    ReadUnsignedBound(b[8..16]);
    ReadUnsignedBound(b[16..18]);
    ReadUnsignedBound(b[18..20]);
    ReadUnsignedBound(b[20..24]);
    InputEvent(TimeVal(ReadSigned(b[0..8]), ReadSigned(b[8..16])),
      ReadUnsigned(b[16..18]), ReadUnsigned(b[18..20]), ReadSigned(b[20..24]))
  }

  lemma EventRoundTrip(ev: InputEvent)
    ensures DecodeEvent(EncodeEvent(ev)) == ev
  {
    Widths();
    var b := EncodeEvent(ev);
    assert b[0..8] == Signed(ev.time.sec, 8);
    assert b[8..16] == Signed(ev.time.usec, 8);
    assert b[16..18] == Unsigned(ev.etype, 2);
    assert b[18..20] == Unsigned(ev.code, 2);
    assert b[20..24] == Signed(ev.value, 4);
    SignedRoundTrip(ev.time.sec, 8);
    SignedRoundTrip(ev.time.usec, 8);
    UnsignedRoundTrip(ev.etype, 2);
    UnsignedRoundTrip(ev.code, 2);
    SignedRoundTrip(ev.value, 4);
  }

  // The record's bytes at their offsets, the least significant first, signed fields modulo the
  // width.

  function Two(b: seq<byte>, at: nat): int
    requires at + 2 <= |b|
  {
    var low: int, high: int := b[at], b[at + 1];
    low + 0x100 * high
  }

  function Four(b: seq<byte>, at: nat): int
    requires at + 4 <= |b|
  {
    Two(b, at) + 0x1_0000 * Two(b, at + 2)
  }

  function Eight(b: seq<byte>, at: nat): int
    requires at + 8 <= |b|
  {
    Four(b, at) + 0x1_0000_0000 * Four(b, at + 4)
  }

  predicate LaidOut(ev: InputEvent, b: seq<byte>) {
    && |b| == 24
    && Eight(b, 0) == ev.time.sec % 0x1_0000_0000_0000_0000
    && Eight(b, 8) == ev.time.usec % 0x1_0000_0000_0000_0000
    && Two(b, 16) == ev.etype
    && Two(b, 18) == ev.code
    && Four(b, 20) == ev.value % 0x1_0000_0000
  }

  lemma ReadPair(b: seq<byte>)
    requires |b| >= 2
    ensures ReadUnsigned(b) == Two(b, 0) + 0x1_0000 * ReadUnsigned(b[2..])
  {
    assert b[1..][1..] == b[2..];
  }

  lemma ReadTwo(b: seq<byte>)
    requires |b| == 2
    ensures ReadUnsigned(b) == Two(b, 0)
  {
    ReadPair(b);
  }

  lemma ReadFour(b: seq<byte>)
    requires |b| == 4
    ensures ReadUnsigned(b) == Four(b, 0)
  {
    ReadPair(b);
    ReadTwo(b[2..]);
  }

  lemma ReadEight(b: seq<byte>)
    requires |b| == 8
    ensures ReadUnsigned(b) == Eight(b, 0)
  {
    hide ReadUnsigned;
    ReadPair(b);
    ReadPair(b[2..]);
    ReadFour(b[4..]);
    assert b[2..][2..] == b[4..];
  }

  // Two's complement is the number modulo the width.

  lemma ReadSignedEight(b: seq<byte>)
    requires |b| == 8
    ensures Eight(b, 0) == ReadSigned(b) % 0x1_0000_0000_0000_0000
  {
    Widths();
    ReadUnsignedBound(b);
    ReadEight(b);
  }

  lemma ReadSignedFour(b: seq<byte>)
    requires |b| == 4
    ensures Four(b, 0) == ReadSigned(b) % 0x1_0000_0000
  {
    Widths();
    ReadUnsignedBound(b);
    ReadFour(b);
  }

  /** Reading any 24 bytes gives the event they lay out. */
  lemma DecodeReadsLayout(b: seq<byte>)
    requires |b| == EVENT_SIZE
    ensures LaidOut(DecodeEvent(b), b)
  {
    hide ReadSigned, ReadUnsigned;
    ReadSignedEight(b[0..8]);
    ReadSignedEight(b[8..16]);
    ReadTwo(b[16..18]);
    ReadTwo(b[18..20]);
    ReadSignedFour(b[20..24]);
  }

  /** Writing an event lays it out: every byte at its offset. */
  lemma EncodeWritesLayout(ev: InputEvent)
    ensures LaidOut(ev, EncodeEvent(ev))
  {
    EventRoundTrip(ev);
    DecodeReadsLayout(EncodeEvent(ev));
  }

  // `cast_to_bytes` on a slice of events.
  function Encode(evs: seq<InputEvent>): seq<byte> {
    if evs == [] then [] else EncodeEvent(evs[0]) + Encode(evs[1..])
  }

  // What a read of these bytes adds to the buffer: the whole events, `bytes / 24` of them.
  function Decode(b: seq<byte>): seq<InputEvent> {
    if |b| < EVENT_SIZE then [] else [DecodeEvent(b[..EVENT_SIZE])] + Decode(b[EVENT_SIZE..])
  }

  /** Whole events survive the trip, and a cut-off event at the end is not seen. */
  lemma {:induction false} DecodeEncode(evs: seq<InputEvent>, partial: seq<byte>)
    requires |partial| < EVENT_SIZE
    ensures Decode(Encode(evs) + partial) == evs
  {
    if evs == [] {
      assert Encode(evs) + partial == partial;
    } else {
      DecodeEncode(evs[1..], partial);
      EventRoundTrip(evs[0]);
      TakeFirst(EncodeEvent(evs[0]), Encode(evs[1..]), partial);
    }
  }

  lemma TakeFirst(first: seq<byte>, rest: seq<byte>, partial: seq<byte>)
    ensures var b := (first + rest) + partial; b[..|first|] == first && b[|first|..] == rest + partial
  {
  }

  /** Event i stands at byte 24 i. */
  lemma {:induction false} EncodeInOrder(evs: seq<InputEvent>, i: nat)
    requires i < |evs|
    ensures |Encode(evs)| == 24 * |evs| && LaidOut(evs[i], Encode(evs)[24 * i..24 * i + 24])
  {
    EncodeLength(evs);
    var rest := Encode(evs[1..]);
    EncodeLength(evs[1..]);
    assert Encode(evs) == EncodeEvent(evs[0]) + rest;
    if i == 0 {
      EncodeWritesLayout(evs[0]);
      assert Encode(evs)[0..24] == EncodeEvent(evs[0]);
    } else {
      EncodeInOrder(evs[1..], i - 1);
      SkipFirst(EncodeEvent(evs[0]), rest, 24 * (i - 1), 24 * (i - 1) + 24);
    }
  }

  /** Reading takes every whole record of the bytes, in order, and leaves a cut-off one. */
  lemma {:induction false} DecodeInOrder(b: seq<byte>, i: nat)
    requires 24 * i + 24 <= |b|
    ensures |Decode(b)| == |b| / 24 && LaidOut(Decode(b)[i], b[24 * i..24 * i + 24])
    decreases |b|
  {
    DecodeLength(b);
    if i == 0 {
      DecodeReadsLayout(b[..24]);
    } else {
      DecodeInOrder(b[24..], i - 1);
      SkipFirst(b[..24], b[24..], 24 * (i - 1), 24 * (i - 1) + 24);
      assert b[..24] + b[24..] == b;
    }
  }

  lemma {:induction false} DecodeLength(b: seq<byte>)
    ensures |Decode(b)| == |b| / 24
    decreases |b|
  {
    if |b| < 24 {
    } else {
      DecodeLength(b[24..]);
    }
  }

  lemma {:induction false} EncodeLength(evs: seq<InputEvent>)
    ensures |Encode(evs)| == 24 * |evs|
  {
    if evs == [] {
    } else {
      EncodeLength(evs[1..]);
    }
  }

  lemma SkipFirst(first: seq<byte>, rest: seq<byte>, lo: nat, hi: nat)
    requires lo <= hi <= |rest|
    ensures (first + rest)[|first| + lo..|first| + hi] == rest[lo..hi]
  {
  }

  lemma {:induction false} EncodeConcat(a: seq<InputEvent>, b: seq<InputEvent>)
    ensures Encode(a + b) == Encode(a) + Encode(b)
  {
    if a == [] {
      assert a + b == b;
    } else {
      hide EncodeEvent;
      EncodeConcat(a[1..], b);
      FirstOfConcat(a, b);
      Associative(EncodeEvent(a[0]), Encode(a[1..]), Encode(b));
    }
  }
}
