/** The multimeter frame decoder of MeasurementDataReceiverModel.cs: the
    per-connection decode state (ReceiveContext plus the session's start
    time), the segment-to-digit table, GetValue, and the per-byte loop of
    ProcessReceivedData.

    A frame is 14 bytes. The high nibble of each byte is its category
    (0x10, 0x20, ..., 0xE0) and the low nibble its data. A 0x10 byte always
    restarts the frame; any other byte is taken only if its category is one
    step (0x10) above the last one taken, and silently dropped otherwise.
    Categories 0x20-0x90 carry the four seven-segment bytes a nibble at a
    time, 0xA0-0xD0 carry multiplier and unit flags, and 0xE0 completes the
    frame.

    The behaviour is given twice: as the functions Step and Run over a
    DecoderState value, and as the class Receiver whose method Feed updates
    its fields and segment array in place, proved to agree with Run. */
module DataReceiver {
  import opened Wrappers
  import opened Decimal
  import opened Measurements

  /** ReceiveContext.Multiple: the SI multiplier selected by the flag bytes.
      `Unscaled` is the source's `None`. */
  datatype Multiple = Unscaled | Milli | Micro | Nano | Kilo | Mega
  {
    /** The enum's numeric value, used as the power of ten of the multiplier. */
    function Exponent(): (e: int)
      ensures e % 3 == 0 && -9 <= e <= 6
      ensures (e == 0) == (this == Unscaled)
    {
      match this
      case Unscaled => 0
      case Milli => -3
      case Micro => -6
      case Nano => -9
      case Kilo => 3
      case Mega => 6
    }
  }

  /** What one display position shows: a decimal digit, or the blank and
      overload patterns, which the source maps to positive infinity. */
  datatype Digit = Num(n: nat) | Blank

  /** The fixed table of seven-segment patterns (the low seven bits of a
      segment byte). Patterns missing from it make the lookup throw. */
  const SegmentToDigit: map<int, Digit> := map[
    0x00 := Blank,
    0x7D := Num(0),
    0x05 := Num(1),
    0x5B := Num(2),
    0x1F := Num(3),
    0x27 := Num(4),
    0x3E := Num(5),
    0x7E := Num(6),
    0x15 := Num(7),
    0x7F := Num(8),
    0x3F := Num(9),
    0x68 := Blank
  ]

  /** The four segment bytes of a frame, most significant position first. */
  type Segments = s: seq<bv8> | |s| == 4 witness [0, 0, 0, 0]

  /** The high nibble of a received byte. */
  function Category(b: bv8): (cat: int)
    ensures 0 <= cat <= 0xF0 && cat % 0x10 == 0
  {
    (b & 0xF0) as int
  }

  /** The low nibble of a received byte. */
  function Data(b: bv8): (data: bv8)
    ensures data < 0x10
  {
    b & 0x0F
  }

  /** The seven-segment pattern of a segment byte, the table's key. */
  function Pattern(b: bv8): (p: int)
    ensures 0 <= p < 0x80
  {
    (b & 0x7F) as int
  }

  /** The high bit of a segment byte: a decimal point, or on position 0 the
      minus sign. */
  predicate Marked(b: bv8)
  {
    b & 0x80 != 0
  }

  /** Looks up one position; the failure carries the unmapped pattern (the
      KeyNotFoundException). */
  function Lookup(b: bv8): (r: Result<Digit, int>)
    ensures r.Success? <==> Pattern(b) in SegmentToDigit
    ensures r.Success? ==> r.value == SegmentToDigit[Pattern(b)]
    ensures r.Failure? ==> r.error == Pattern(b)
  {
    if Pattern(b) in SegmentToDigit then Success(SegmentToDigit[Pattern(b)]) else Failure(Pattern(b))
  }

  /** The contribution of a digit to the sum in GetValue; a blank position
      makes the sum infinite, which is tracked separately. */
  function DigitValue(d: Digit): nat
  {
    if d.Num? then d.n else 0
  }

  /** The four digits combined as a base-ten number. */
  function DigitSum(d0: Digit, d1: Digit, d2: Digit, d3: Digit): nat
  {
    DigitValue(d0) * 1000 + DigitValue(d1) * 100 + DigitValue(d2) * 10 + DigitValue(d3)
  }

  /** The decimal points of ReceiveContext.GetValue: a mark on position 3
      divides by 10, on position 2 by 100, on position 1 by 1000, in that
      order. */
  function ApplyDecimalPoints(seg: Segments, value: real): real
  {
    var value := if Marked(seg[3]) then value / 10.0 else value;
    var value := if Marked(seg[2]) then value / 100.0 else value;
    if Marked(seg[1]) then value / 1000.0 else value
  }

  /** The sign of ReceiveContext.GetValue: a mark on position 0 negates. */
  function ApplySign(seg: Segments, value: real): real
  {
    if Marked(seg[0]) then -value else value
  }

  /** The multiplier of ReceiveContext.GetValue: times 10 to the power of
      the selected multiple's numeric value. */
  function Scaled(value: real, multiple: Multiple): real
  {
    value * Pow10(multiple.Exponent())
  }

  /** The arithmetic of ReceiveContext.GetValue once the four digits are
      known: the digits combined as a base-ten number, the decimal points
      applied, negated for the sign on position 0, then scaled by the
      multiplier. A blank position makes the number +infinity before the
      sign is applied. */
  function Combine(d0: Digit, d1: Digit, d2: Digit, d3: Digit, seg: Segments, multiple: Multiple): Reading
  {
    if d0.Blank? || d1.Blank? || d2.Blank? || d3.Blank? then
      Infinite(Marked(seg[0]))
    else
      Finite(Scaled(ApplySign(seg, ApplyDecimalPoints(seg, DigitSum(d0, d1, d2, d3) as real)), multiple))
  }

  /** ReceiveContext.GetValue: the four positions are looked up in order
      0, 1, 2, 3, and the first unmapped pattern fails the call with that
      pattern; otherwise the digits are combined. */
  function GetValue(seg: Segments, multiple: Multiple): Result<Reading, int>
  {
    match (Lookup(seg[0]), Lookup(seg[1]), Lookup(seg[2]), Lookup(seg[3]))
    case (Failure(p), _, _, _) => Failure(p)
    case (Success(_), Failure(p), _, _) => Failure(p)
    case (Success(_), Success(_), Failure(p), _) => Failure(p)
    case (Success(_), Success(_), Success(_), Failure(p)) => Failure(p)
    case (Success(d0), Success(d1), Success(d2), Success(d3)) => Success(Combine(d0, d1, d2, d3, seg, multiple))
  }

  /** The decode state of one connection: ReceiveContext's fields and the
      session's recording start time. */
  datatype DecoderState = DecoderState(
    seg: Segments,
    lastCategory: int,
    steps: int,
    multiple: Multiple,
    unit: Option<MeasurementUnit>,
    startTime: Option<int>)

  /** The state of a freshly created receiver. */
  const Initial: DecoderState := DecoderState([0, 0, 0, 0], 0, 0, Unscaled, None, None)

  /** How a call ends: having consumed all bytes, by the return on a frame
      without unit, or by the exception of an unmapped segment pattern. */
  datatype FeedOutcome = Completed | AbortedNoUnit | DecodeFault(pattern: int)

  /** The new state, the measurements emitted, and how processing ended. */
  datatype FeedResult = FeedResult(state: DecoderState, emitted: seq<Measurement>, outcome: FeedOutcome)

  /** Category 0xA0: mask 0x08 selects micro, 0x04 nano, 0x02 kilo; the tests
      run in that order, so the last set bit wins. */
  function FlagsA(multiple: Multiple, data: bv8): Multiple
  {
    var m := if data & 0x08 != 0 then Micro else multiple;
    var m := if data & 0x04 != 0 then Nano else m;
    if data & 0x02 != 0 then Kilo else m
  }

  /** Category 0xB0, multiplier part: mask 0x08 selects milli, 0x02 mega. */
  function FlagsBMultiple(multiple: Multiple, data: bv8): Multiple
  {
    var m := if data & 0x08 != 0 then Milli else multiple;
    if data & 0x02 != 0 then Mega else m
  }

  /** Category 0xB0, unit part: mask 0x04 selects percent. */
  function FlagsBUnit(unit: Option<MeasurementUnit>, data: bv8): Option<MeasurementUnit>
  {
    if data & 0x04 != 0 then Some(Percent) else unit
  }

  /** Category 0xC0: mask 0x08 selects farad, 0x04 ohm. */
  function FlagsC(unit: Option<MeasurementUnit>, data: bv8): Option<MeasurementUnit>
  {
    var u := if data & 0x08 != 0 then Some(Farad) else unit;
    if data & 0x04 != 0 then Some(Ohm) else u
  }

  /** Category 0xD0: mask 0x08 selects ampere, 0x04 volt, 0x02 hertz. */
  function FlagsD(unit: Option<MeasurementUnit>, data: bv8): Option<MeasurementUnit>
  {
    var u := if data & 0x08 != 0 then Some(Ampere) else unit;
    var u := if data & 0x04 != 0 then Some(Volt) else u;
    if data & 0x02 != 0 then Some(Hertz) else u
  }

  /** Categories 0x20-0x90: the even category of a pair stores its nibble
      as the high half of a segment byte, the odd one ORs its nibble into
      the low half. */
  function SegmentNibble(seg: Segments, cat: int, data: bv8): Segments
  {
    match cat
    case 0x20 => seg[0 := data << 4]
    case 0x30 => seg[0 := seg[0] | data]
    case 0x40 => seg[1 := data << 4]
    case 0x50 => seg[1 := seg[1] | data]
    case 0x60 => seg[2 := data << 4]
    case 0x70 => seg[2 := seg[2] | data]
    case 0x80 => seg[3 := data << 4]
    case 0x90 => seg[3 := seg[3] | data]
    case _ => seg
  }

  /** Categories 0xA0-0xD0: the multiplier and unit flags. */
  function FlagNibble(s: DecoderState, cat: int, data: bv8): DecoderState
  {
    match cat
    case 0xA0 => s.(multiple := FlagsA(s.multiple, data))
    case 0xB0 => s.(multiple := FlagsBMultiple(s.multiple, data), unit := FlagsBUnit(s.unit, data))
    case 0xC0 => s.(unit := FlagsC(s.unit, data))
    case 0xD0 => s.(unit := FlagsD(s.unit, data))
    case _ => s
  }

  /** The effect of an accepted byte's data nibble (the switch on the
      category), for every category except a completing 0xE0. */
  function Payload(s: DecoderState, cat: int, data: bv8): DecoderState
  {
    if 0x20 <= cat <= 0x90 then s.(seg := SegmentNibble(s.seg, cat, data))
    else FlagNibble(s, cat, data)
  }

  /** A 0xE0 byte reaching step 14: anchor the start time if unset, decode
      the value, and emit a measurement, or stop the call when the value
      cannot be decoded or no unit was seen. */
  function Complete(t: DecoderState, now: int): FeedResult
  {
    var start := if t.startTime.Some? then t.startTime.value else now;
    var u := t.(startTime := Some(start));
    match GetValue(u.seg, u.multiple)
    case Failure(p) => FeedResult(u, [], DecodeFault(p))
    case Success(v) =>
      if u.unit.None? then FeedResult(u, [], AbortedNoUnit)
      else FeedResult(u.(lastCategory := 0xE0), [NewMeasurement(start, now - start, v, u.unit.value)], Completed)
  }

  /** An accepted byte: a 0x10 byte first clears the step count, the
      multiplier and the unit; the step count then advances and the data
      nibble takes effect, and the category becomes the last one taken
      unless a completing 0xE0 stops the call. */
  function Accept(s: DecoderState, cat: int, data: bv8, now: int): FeedResult
  {
    var r := if cat == 0x10 then s.(steps := 0, multiple := Unscaled, unit := None) else s;
    var t := r.(steps := r.steps + 1);
    if cat == 0xE0 && t.steps == 14 then Complete(t, now)
    else FeedResult(Payload(t, cat, data).(lastCategory := cat), [], Completed)
  }

  /** One iteration of the loop of ProcessReceivedData: a byte that is not
      0x10 and does not follow the last category taken is skipped. */
  function Step(s: DecoderState, b: bv8, now: int): FeedResult
  {
    var cat := Category(b);
    if cat != 0x10 && cat - s.lastCategory != 0x10 then FeedResult(s, [], Completed)
    else Accept(s, cat, Data(b), now)
  }

  /** The loop over a chunk of received bytes: measurements are emitted in
      order, and the first step that stops the call drops the rest. */
  function Run(s: DecoderState, bytes: seq<bv8>, now: int): FeedResult
    decreases |bytes|
  {
    if bytes == [] then FeedResult(s, [], Completed)
    else
      var r := Step(s, bytes[0], now);
      if r.outcome != Completed then r
      else
        var rest := Run(r.state, bytes[1..], now);
        FeedResult(rest.state, r.emitted + rest.emitted, rest.outcome)
  }

  /** Running a concatenation runs the first part, then, unless it stopped,
      the second from where the first left off. */
  lemma {:induction false} RunAppend(s: DecoderState, p: seq<bv8>, q: seq<bv8>, now: int)
    ensures var a := Run(s, p, now);
      Run(s, p + q, now) ==
        if a.outcome != Completed then a
        else
          var b := Run(a.state, q, now);
          FeedResult(b.state, a.emitted + b.emitted, b.outcome)
    decreases |p|
  {
    if p == [] {
      assert p + q == q;
    } else {
      assert (p + q)[0] == p[0];
      assert (p + q)[1..] == p[1..] + q;
      var r := Step(s, p[0], now);
      if r.outcome == Completed {
        RunAppend(r.state, p[1..], q, now);
        var a := Run(r.state, p[1..], now);
        if a.outcome == Completed {
          var b := Run(a.state, q, now);
          assert r.emitted + (a.emitted + b.emitted) == (r.emitted + a.emitted) + b.emitted;
        }
      }
    }
  }

  /** One more byte after a run that did not stop is one more Step. */
  lemma RunSnoc(s: DecoderState, p: seq<bv8>, b: bv8, now: int)
    requires Run(s, p, now).outcome == Completed
    ensures var a := Run(s, p, now);
      var t := Step(a.state, b, now);
      Run(s, p + [b], now) == FeedResult(t.state, a.emitted + t.emitted, t.outcome)
  {
    RunAppend(s, p, [b], now);
    var a := Run(s, p, now);
    var t := Step(a.state, b, now);
    assert [b][1..] == [];
    assert Run(a.state, [b], now) == FeedResult(t.state, t.emitted + [], t.outcome);
    assert t.emitted + [] == t.emitted;
  }

  /** The receiver: ReceiveContext's fields and segment buffer, and the
      session's recording start time. */
  class Receiver {
    const segmentData: array<bv8>
    var lastCategory: int
    var steps: int
    var selectedMultiple: Multiple
    var unit: Option<MeasurementUnit>
    var startRecordingTime: Option<int>

    ghost predicate Valid()
      reads this
    {
      segmentData.Length == 4
    }

    /** The abstract decode state these fields hold. */
    ghost function State(): DecoderState
      reads this, segmentData
      requires Valid()
    {
      DecoderState(segmentData[..], lastCategory, steps, selectedMultiple, unit, startRecordingTime)
    }

    constructor ()
      ensures Valid() && fresh(segmentData)
      ensures State() == Initial
    {
      segmentData := new bv8[4](_ => 0);
      lastCategory, steps := 0, 0;
      selectedMultiple := Unscaled;
      unit := None;
      startRecordingTime := None;
      new;
      assert segmentData[..] == [0, 0, 0, 0];
    }

    /** Processes one chunk of received bytes at clock reading `now`. */
    method Feed(bytes: seq<bv8>, now: int) returns (emitted: seq<Measurement>, outcome: FeedOutcome)
      requires Valid()
      modifies this, segmentData
      ensures Valid()
      ensures FeedResult(State(), emitted, outcome) == Run(old(State()), bytes, now)
    {
      emitted, outcome := [], Completed;
      var i := 0;
      while i < |bytes|
        invariant 0 <= i <= |bytes|
        invariant outcome == Completed
        invariant Run(old(State()), bytes[..i], now) == FeedResult(State(), emitted, outcome)
      {
        var cByte := bytes[i];
        var cat := Category(cByte);
        var data := Data(cByte);
        RunSnoc(old(State()), bytes[..i], cByte, now);
        assert bytes[..i + 1] == bytes[..i] + [cByte];

        if cat != 0x10 && cat - lastCategory != 0x10 {
          i := i + 1;
          continue;
        }
        var frame;
        frame, outcome := AcceptByte(cat, data, now);
        if outcome != Completed {
          RunAppend(old(State()), bytes[..i + 1], bytes[i + 1..], now);
          assert bytes[..i + 1] + bytes[i + 1..] == bytes;
          return;
        }
        emitted := emitted + frame;
        i := i + 1;
      }
      assert bytes[..i] == bytes;
    }

    /** The body of the loop for a byte that is taken. */
    method AcceptByte(cat: int, data: bv8, now: int) returns (frame: seq<Measurement>, outcome: FeedOutcome)
      requires Valid()
      modifies this, segmentData
      ensures Valid()
      ensures FeedResult(State(), frame, outcome) == Accept(old(State()), cat, data, now)
    {
      if cat == 0x10 {
        steps := 0;
        selectedMultiple := Unscaled;
        unit := None;
      }
      steps := steps + 1;
      frame, outcome := [], Completed;
      if cat == 0xE0 && steps == 14 {
        frame, outcome := CompleteFrame(now);
        if outcome != Completed {
          return;
        }
      } else if 0x20 <= cat <= 0x90 {
        StoreNibble(cat, data);
      } else {
        ApplyFlags(cat, data);
      }
      lastCategory := cat;
    }

    /** The segment cases of the switch on the category. */
    method StoreNibble(cat: int, data: bv8)
      requires Valid()
      modifies segmentData
      ensures segmentData[..] == SegmentNibble(old(segmentData[..]), cat, data)
    {
      match cat {
        case 0x20 => SetHigh(0, data);
        case 0x30 => SetLow(0, data);
        case 0x40 => SetHigh(1, data);
        case 0x50 => SetLow(1, data);
        case 0x60 => SetHigh(2, data);
        case 0x70 => SetLow(2, data);
        case 0x80 => SetHigh(3, data);
        case 0x90 => SetLow(3, data);
        case _ =>
      }
    }

    /** `segmentData[k] = (byte)(data << 4)`. */
    method SetHigh(k: nat, data: bv8)
      requires Valid() && k < 4
      modifies segmentData
      ensures segmentData[..] == old(segmentData[..])[k := data << 4]
    {
      segmentData[k] := data << 4;
    }

    /** `segmentData[k] |= data`. */
    method SetLow(k: nat, data: bv8)
      requires Valid() && k < 4
      modifies segmentData
      ensures segmentData[..] == old(segmentData[..])[k := old(segmentData[k]) | data]
    {
      segmentData[k] := segmentData[k] | data;
    }

    /** The flag cases of the switch on the category. */
    method ApplyFlags(cat: int, data: bv8)
      requires Valid()
      modifies this
      ensures Valid()
      ensures State() == FlagNibble(old(State()), cat, data)
    {
      match cat {
        case 0xA0 =>
          if data & 0x08 != 0 { selectedMultiple := Micro; }
          if data & 0x04 != 0 { selectedMultiple := Nano; }
          if data & 0x02 != 0 { selectedMultiple := Kilo; }
        case 0xB0 =>
          if data & 0x08 != 0 { selectedMultiple := Milli; }
          if data & 0x04 != 0 { unit := Some(Percent); }
          if data & 0x02 != 0 { selectedMultiple := Mega; }
        case 0xC0 =>
          if data & 0x08 != 0 { unit := Some(Farad); }
          if data & 0x04 != 0 { unit := Some(Ohm); }
        case 0xD0 =>
          if data & 0x08 != 0 { unit := Some(Ampere); }
          if data & 0x04 != 0 { unit := Some(Volt); }
          if data & 0x02 != 0 { unit := Some(Hertz); }
        case _ =>
      }
    }

    /** The 0xE0 case at step 14. On success the caller records 0xE0 as
        the last category; on a fault or a missing unit the call stops with
        the state as it is. */
    method CompleteFrame(now: int) returns (frame: seq<Measurement>, outcome: FeedOutcome)
      requires Valid()
      modifies this
      ensures Valid()
      ensures var r := Complete(old(State()), now);
        && r.emitted == frame && r.outcome == outcome
        && r.state == if outcome == Completed then State().(lastCategory := 0xE0) else State()
    {
      if startRecordingTime.None? {
        startRecordingTime := Some(now);
      }
      var value := GetValue(segmentData[..], selectedMultiple);
      if value.Failure? {
        return [], DecodeFault(value.error);
      }
      if unit.None? {
        return [], AbortedNoUnit;
      }
      frame := [NewMeasurement(startRecordingTime.value, now - startRecordingTime.value, value.value, unit.value)];
      outcome := Completed;
    }
  }
}
