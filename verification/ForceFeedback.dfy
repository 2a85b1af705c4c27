/**
 * Force feedback effects and their kernel form, whose parameters share one union. Every named
 * field of the union is a 16-bit cell at an even offset, so the overlaid storage is modelled
 * as its 16-bit words: 16 of them, the 32 bytes of a 64-bit target.
 */
module ForceFeedback {
  import opened Events
  import opened Wrappers

  type i16 = x: int | -0x8000 <= x < 0x8000

  const UNION_WORDS := 16

  const FF_RUMBLE: u16 := 0x50
  const FF_PERIODIC: u16 := 0x51
  const FF_CONSTANT: u16 := 0x52
  const FF_SPRING: u16 := 0x53
  const FF_FRICTION: u16 := 0x54
  const FF_DAMPER: u16 := 0x55
  const FF_INERTIA: u16 := 0x56
  const FF_RAMP: u16 := 0x57
  const FF_SQUARE: u16 := 0x58
  const FF_TRIANGLE: u16 := 0x59
  const FF_SINE: u16 := 0x5a
  const FF_SAW_UP: u16 := 0x5b
  const FF_SAW_DOWN: u16 := 0x5c

  datatype Envelope = Envelope(attackLength: u16, attackLevel: u16, fadeLength: u16, fadeLevel: u16)

  datatype Waveform = Square | Triangle | Sine | SawUp | SawDown

  datatype Condition = Condition(
    rightSaturation: u16, leftSaturation: u16,
    rightCoefficient: i16, leftCoefficient: i16,
    deadband: u16, center: i16)

  datatype Kind =
    | Constant(level: i16, envelope: Envelope)
    | Ramp(startLevel: i16, endLevel: i16, envelope: Envelope)
    | Periodic(waveform: Waveform, period: u16, magnitude: i16, offset: i16, phase: u16, envelope: Envelope)
    | Spring(first: Condition, second: Condition)
    | Friction(first: Condition, second: Condition)
    | Damper(first: Condition, second: Condition)
    | Inertia(first: Condition, second: Condition)
    | Rumble(strongMagnitude: u16, weakMagnitude: u16)

  datatype Trigger = Trigger(button: u16, interval: u16)
  datatype Replay = Replay(length: u16, delay: u16)

  // FFEffectData
  datatype EffectData = EffectData(direction: u16, trigger: Trigger, replay: Replay, kind: Kind)

  // sys::ff_effect; its own trigger and replay structs have the same fields as ours.
  datatype Effect = Effect(kindCode: u16, id: i16, direction: u16, trigger: Trigger, replay: Replay, words: seq<u16>) {
    predicate Valid() {
      |words| == UNION_WORDS
    }
  }

  function AsI16(w: u16): i16 {
    if w >= 0x8000 then w - 0x1_0000 else w
  }

  function AsU16(x: i16): u16 {
    if x < 0 then x + 0x1_0000 else x
  }

  function WaveformCode(w: Waveform): u16 {
    match w
    case Square => FF_SQUARE
    case Triangle => FF_TRIANGLE
    case Sine => FF_SINE
    case SawUp => FF_SAW_UP
    case SawDown => FF_SAW_DOWN
  }

  function WaveformOf(code: u16): Option<Waveform> {
    if code == FF_SQUARE then Some(Square)
    else if code == FF_TRIANGLE then Some(Triangle)
    else if code == FF_SINE then Some(Sine)
    else if code == FF_SAW_UP then Some(SawUp)
    else if code == FF_SAW_DOWN then Some(SawDown)
    else None
  }

  function KindCode(k: Kind): u16 {
    match k
    case Damper(_, _) => FF_DAMPER
    case Inertia(_, _) => FF_INERTIA
    case Constant(_, _) => FF_CONSTANT
    case Ramp(_, _, _) => FF_RAMP
    case Periodic(_, _, _, _, _, _) => FF_PERIODIC
    case Spring(_, _) => FF_SPRING
    case Friction(_, _) => FF_FRICTION
    case Rumble(_, _) => FF_RUMBLE
  }

  // Words of the union the member for this type names; they come first in every member.
  function NamedWords(code: u16): nat {
    if code == FF_CONSTANT then 5
    else if code == FF_RAMP then 6
    else if code == FF_PERIODIC then 9
    else if code == FF_RUMBLE then 2
    else 12
  }

  function EnvelopeAt(w: seq<u16>, i: nat): Envelope
    requires i + 4 <= |w|
  {
    Envelope(w[i], w[i + 1], w[i + 2], w[i + 3])
  }

  function ConditionAt(w: seq<u16>, i: nat): Condition
    requires i + 6 <= |w|
  {
    Condition(w[i], w[i + 1], AsI16(w[i + 2]), AsI16(w[i + 3]), w[i + 4], AsI16(w[i + 5]))
  }

  // None where the conversion reaches `unreachable!()`: an unknown type or waveform.
  function DecodeKind(code: u16, w: seq<u16>): Option<Kind>
    requires |w| == UNION_WORDS
  {
    if code == FF_CONSTANT then Some(Constant(AsI16(w[0]), EnvelopeAt(w, 1)))
    else if code == FF_RAMP then Some(Ramp(AsI16(w[0]), AsI16(w[1]), EnvelopeAt(w, 2)))
    else if code == FF_PERIODIC then
      var waveform := WaveformOf(w[0]);
      if waveform.None? then None
      else Some(Periodic(waveform.value, w[1], AsI16(w[2]), AsI16(w[3]), w[4], EnvelopeAt(w, 5)))
    else if code == FF_SPRING then Some(Spring(ConditionAt(w, 0), ConditionAt(w, 6)))
    else if code == FF_FRICTION then Some(Friction(ConditionAt(w, 0), ConditionAt(w, 6)))
    else if code == FF_DAMPER then Some(Damper(ConditionAt(w, 0), ConditionAt(w, 6)))
    else if code == FF_INERTIA then Some(Inertia(ConditionAt(w, 0), ConditionAt(w, 6)))
    else if code == FF_RUMBLE then Some(Rumble(w[0], w[1]))
    else None
  }

  function Decode(e: Effect): Option<EffectData>
    requires e.Valid()
  {
    var kind := DecodeKind(e.kindCode, e.words);
    if kind.None? then None else Some(EffectData(e.direction, e.trigger, e.replay, kind.value))
  }

  // The kernel's layout, word by word and in its own numbers. The coder and the decoder are
  // both proved against it.

  // Signed fields are stored modulo 2^16.
  predicate Stores(word: u16, x: int) {
    word == x % 0x1_0000
  }

  predicate HasEnvelope(w: seq<u16>, at: nat, e: Envelope) {
    && at + 4 <= |w|
    && w[at] == e.attackLength && w[at + 1] == e.attackLevel
    && w[at + 2] == e.fadeLength && w[at + 3] == e.fadeLevel
  }

  predicate HasCondition(w: seq<u16>, at: nat, c: Condition) {
    && at + 6 <= |w|
    && w[at] == c.rightSaturation && w[at + 1] == c.leftSaturation
    && Stores(w[at + 2], c.rightCoefficient) && Stores(w[at + 3], c.leftCoefficient)
    && w[at + 4] == c.deadband && Stores(w[at + 5], c.center)
  }

  predicate HasConditions(w: seq<u16>, first: Condition, second: Condition) {
    HasCondition(w, 0, first) && HasCondition(w, 6, second)
  }

  predicate HasWaveform(word: u16, waveform: Waveform) {
    match waveform
    case Square => word == 0x58
    case Triangle => word == 0x59
    case Sine => word == 0x5a
    case SawUp => word == 0x5b
    case SawDown => word == 0x5c
  }

  predicate Holds(code: u16, w: seq<u16>, kind: Kind)
    requires |w| == UNION_WORDS
  {
    match kind
    case Constant(level, envelope) => code == 0x52 && Stores(w[0], level) && HasEnvelope(w, 1, envelope)
    case Ramp(startLevel, endLevel, envelope) =>
      code == 0x57 && Stores(w[0], startLevel) && Stores(w[1], endLevel) && HasEnvelope(w, 2, envelope)
    case Periodic(waveform, period, magnitude, offset, phase, envelope) =>
      && code == 0x51 && HasWaveform(w[0], waveform)
      && w[1] == period && Stores(w[2], magnitude) && Stores(w[3], offset) && w[4] == phase
      && HasEnvelope(w, 5, envelope)
    case Spring(first, second) => code == 0x53 && HasConditions(w, first, second)
    case Friction(first, second) => code == 0x54 && HasConditions(w, first, second)
    case Damper(first, second) => code == 0x55 && HasConditions(w, first, second)
    case Inertia(first, second) => code == 0x56 && HasConditions(w, first, second)
    case Rumble(strongMagnitude, weakMagnitude) =>
      code == 0x50 && w[0] == strongMagnitude && w[1] == weakMagnitude
  }

  // How many words the layout of a kind takes.
  function Size(kind: Kind): nat {
    match kind
    case Constant(_, _) => 5
    case Ramp(_, _, _) => 6
    case Periodic(_, _, _, _, _, _) => 9
    case Rumble(_, _) => 2
    case _ => 12
  }

  // The effect with its id and every unnamed word of the union zeroed.
  function Cleared(e: Effect): Effect
    requires e.Valid()
  {
    e.(id := 0,
       words := seq(UNION_WORDS, i requires 0 <= i < UNION_WORDS =>
         if i < NamedWords(e.kindCode) then e.words[i] else 0))
  }

  lemma CellRoundTrip(w: u16, x: i16)
    ensures AsI16(AsU16(x)) == x && AsU16(AsI16(w)) == w
  {
  }

  /** The decoder reads exactly the kernel's layout, field by field. */
  lemma DecodeReadsLayout(e: Effect, d: EffectData)
    requires e.Valid()
    ensures Decode(e) == Some(d) <==>
      && Holds(e.kindCode, e.words, d.kind)
      && d.direction == e.direction && d.trigger == e.trigger && d.replay == e.replay
  {
    HoldsIff(e.kindCode, e.words, d.kind);
  }

  lemma EnvelopeIff(w: seq<u16>, at: nat, e: Envelope)
    requires at + 4 <= |w|
    ensures EnvelopeAt(w, at) == e <==> HasEnvelope(w, at, e)
  {
  }

  lemma StoresIff(word: u16, x: i16)
    ensures AsI16(word) == x <==> Stores(word, x)
  {
  }

  lemma ConditionIff(w: seq<u16>, at: nat, c: Condition)
    requires at + 6 <= |w|
    ensures ConditionAt(w, at) == c <==> HasCondition(w, at, c)
  {
    StoresIff(w[at + 2], c.rightCoefficient);
    StoresIff(w[at + 3], c.leftCoefficient);
    StoresIff(w[at + 5], c.center);
  }

  lemma HoldsIff(code: u16, w: seq<u16>, kind: Kind)
    requires |w| == UNION_WORDS
    ensures DecodeKind(code, w) == Some(kind) <==> Holds(code, w, kind)
  {
    hide EnvelopeAt, ConditionAt, AsI16, HasEnvelope, HasCondition, Stores;
    match kind
    case Constant(level, envelope) =>
      StoresIff(w[0], level);
      EnvelopeIff(w, 1, envelope);
    case Ramp(startLevel, endLevel, envelope) =>
      StoresIff(w[0], startLevel);
      StoresIff(w[1], endLevel);
      EnvelopeIff(w, 2, envelope);
    case Periodic(waveform, period, magnitude, offset, phase, envelope) =>
      StoresIff(w[2], magnitude);
      StoresIff(w[3], offset);
      EnvelopeIff(w, 5, envelope);
    case Spring(first, second) => ConditionsIff(w, first, second);
    case Friction(first, second) => ConditionsIff(w, first, second);
    case Damper(first, second) => ConditionsIff(w, first, second);
    case Inertia(first, second) => ConditionsIff(w, first, second);
    case Rumble(_, _) =>
  }

  lemma ConditionsIff(w: seq<u16>, first: Condition, second: Condition)
    requires |w| == UNION_WORDS
    ensures ConditionAt(w, 0) == first && ConditionAt(w, 6) == second <==> HasConditions(w, first, second)
  {
    ConditionIff(w, 0, first);
    ConditionIff(w, 6, second);
  }

  method PutEnvelope(u: array<u16>, i: nat, env: Envelope)
    requires i + 4 <= u.Length
    modifies u
    ensures EnvelopeAt(u[..], i) == env
    ensures forall k | 0 <= k < u.Length && !(i <= k < i + 4) :: u[k] == old(u[k])
  {
    u[i], u[i + 1], u[i + 2], u[i + 3] := env.attackLength, env.attackLevel, env.fadeLength, env.fadeLevel;
  }

  method PutCondition(u: array<u16>, i: nat, c: Condition)
    requires i + 6 <= u.Length
    modifies u
    ensures ConditionAt(u[..], i) == c
    ensures forall k | 0 <= k < u.Length && !(i <= k < i + 6) :: u[k] == old(u[k])
  {
    u[i], u[i + 1] := c.rightSaturation, c.leftSaturation;
    u[i + 2], u[i + 3] := AsU16(c.rightCoefficient), AsU16(c.leftCoefficient);
    u[i + 4], u[i + 5] := c.deadband, AsU16(c.center);
  }

  // The match of the encoder, assigning the union's fields in place.
  method PutKind(u: array<u16>, kind: Kind)
    requires u.Length == UNION_WORDS && forall k | 0 <= k < u.Length :: u[k] == 0
    modifies u
    ensures DecodeKind(KindCode(kind), u[..]) == Some(kind)
    ensures Holds(KindCode(kind), u[..], kind)
    ensures forall k | NamedWords(KindCode(kind)) <= k < u.Length :: u[k] == 0
  {
    match kind {
      case Constant(level, envelope) =>
        u[0] := AsU16(level);
        PutEnvelope(u, 1, envelope);
      case Ramp(startLevel, endLevel, envelope) =>
        u[0] := AsU16(startLevel);
        u[1] := AsU16(endLevel);
        PutEnvelope(u, 2, envelope);
      case Periodic(waveform, period, magnitude, offset, phase, envelope) =>
        u[0] := WaveformCode(waveform);
        u[1] := period;
        u[2] := AsU16(magnitude);
        u[3] := AsU16(offset);
        u[4] := phase;
        PutEnvelope(u, 5, envelope);
      case Rumble(strongMagnitude, weakMagnitude) =>
        u[0] := strongMagnitude;
        u[1] := weakMagnitude;
      case Spring(first, second) => PutConditions(u, first, second);
      case Friction(first, second) => PutConditions(u, first, second);
      case Damper(first, second) => PutConditions(u, first, second);
      case Inertia(first, second) => PutConditions(u, first, second);
    }
    HoldsIff(KindCode(kind), u[..], kind);
  }

  method PutConditions(u: array<u16>, first: Condition, second: Condition)
    requires u.Length == UNION_WORDS
    modifies u
    ensures ConditionAt(u[..], 0) == first && ConditionAt(u[..], 6) == second
    ensures forall k | 12 <= k < u.Length :: u[k] == old(u[k])
  {
    PutCondition(u, 0, first);
    PutCondition(u, 6, second);
  }

  /**
   * Encoding. The result decodes to exactly the data it was made from, for all eight kinds; its
   * id and every word its member does not name are zero.
   */
  method Encode(d: EffectData) returns (e: Effect)
    ensures e.Valid() && Decode(e) == Some(d)
    ensures e == Cleared(e)
    ensures Holds(e.kindCode, e.words, d.kind)
    ensures e.id == 0 && forall i | Size(d.kind) <= i < UNION_WORDS :: e.words[i] == 0
    ensures e.direction == d.direction && e.trigger == d.trigger && e.replay == d.replay
  {
    var u := new u16[UNION_WORDS](_ => 0);
    PutKind(u, d.kind);
    e := Effect(KindCode(d.kind), 0, d.direction, d.trigger, d.replay, u[..]);
    assert e.words == Cleared(e).words;
  }

  /**
   * Decoding sees everything of a known effect but the id and the unnamed words, and nothing
   * of those: two effects decode alike if and only if they agree outside them.
   */
  lemma DecodeDetermines(e: Effect, f: Effect)
    requires e.Valid() && f.Valid() && Decode(e).Some?
    ensures Decode(e) == Decode(f) <==> Cleared(e) == Cleared(f)
  {
    ClearedDecodesTheSame(e);
    ClearedDecodesTheSame(f);
    if Decode(e) == Decode(f) { DecodedWords(e, f); }
  }

  lemma DecodedWords(e: Effect, f: Effect)
    requires e.Valid() && f.Valid() && Decode(e).Some? && Decode(e) == Decode(f)
    ensures Cleared(e) == Cleared(f)
  {
    assert e.kindCode == KindCode(Decode(e).value.kind) == f.kindCode;
    forall i | 0 <= i < NamedWords(e.kindCode) ensures e.words[i] == f.words[i] {
      SameWord(e.kindCode, e.words, f.words, i);
    }
    assert Cleared(e).words == Cleared(f).words;
  }

  lemma SameEnvelope(v: seq<u16>, w: seq<u16>, at: nat, i: nat)
    requires at + 4 <= |v| && at + 4 <= |w| && EnvelopeAt(v, at) == EnvelopeAt(w, at) && at <= i < at + 4
    ensures v[i] == w[i]
  {
  }

  lemma SameCondition(v: seq<u16>, w: seq<u16>, at: nat, i: nat)
    requires at + 6 <= |v| && at + 6 <= |w| && ConditionAt(v, at) == ConditionAt(w, at) && at <= i < at + 6
    ensures v[i] == w[i]
  {
    CellRoundTrip(v[i], 0);
    CellRoundTrip(w[i], 0);
  }

  lemma SameWord(code: u16, v: seq<u16>, w: seq<u16>, i: nat)
    requires |v| == |w| == UNION_WORDS && DecodeKind(code, v).Some? && DecodeKind(code, v) == DecodeKind(code, w)
    requires i < NamedWords(code)
    ensures v[i] == w[i]
  {
    CellRoundTrip(v[i], 0);
    CellRoundTrip(w[i], 0);
    if code == FF_CONSTANT { if i >= 1 { SameEnvelope(v, w, 1, i); } }
    else if code == FF_RAMP { if i >= 2 { SameEnvelope(v, w, 2, i); } }
    else if code == FF_PERIODIC { if i >= 5 { SameEnvelope(v, w, 5, i); } }
    else if code == FF_RUMBLE {}
    else { SameCondition(v, w, if i < 6 then 0 else 6, i); }
  }

  lemma ClearedDecodesTheSame(e: Effect)
    requires e.Valid()
    ensures Cleared(e).Valid() && Decode(Cleared(e)) == Decode(e)
  {
    assert forall i | 0 <= i < NamedWords(e.kindCode) :: Cleared(e).words[i] == e.words[i];
  }

  /**
   * The other way round: decoding a known effect and encoding the result gives the effect back
   * with its id and the unnamed words of the union cleared.
   */
  method Reencode(e: Effect) returns (f: Effect)
    requires e.Valid() && Decode(e).Some?
    ensures f == Cleared(e) && Decode(f) == Decode(e)
  {
    f := Encode(Decode(e).value);
    DecodeDetermines(e, f);
  }

  /** The conversion is defined exactly on the eight known types, periodic ones with a known waveform. */
  lemma DecodeDefinedIff(e: Effect)
    requires e.Valid()
    ensures Decode(e).Some? <==>
      FF_RUMBLE <= e.kindCode <= FF_RAMP && (e.kindCode == FF_PERIODIC ==> FF_SQUARE <= e.words[0] <= FF_SAW_DOWN)
  {
  }
}
