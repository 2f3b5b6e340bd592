/** Properties of the frame decoder of MeasurementDataReceiverModel.cs, stated
    over Step and Run (and so, through Receiver.Feed's postcondition, over
    the in-place receiver). */
module DataReceiverProperties {
  import opened Wrappers
  import opened Measurements
  import opened DataReceiver

  /** What every reachable state satisfies: the last category taken is a
      category, and the step count is its index, or one more after a call
      stopped at a completing 0xE0 (fault or missing unit). */
  ghost predicate Inv(s: DecoderState)
  {
    && 0 <= s.lastCategory <= 0xF0
    && s.lastCategory % 0x10 == 0
    && (s.steps == s.lastCategory / 0x10 || s.steps == s.lastCategory / 0x10 + 1)
  }

  /** The step count is in line with the last category taken. */
  ghost predicate Synced(s: DecoderState)
  {
    Inv(s) && s.steps == s.lastCategory / 0x10
  }

  lemma InitialSynced()
    ensures Synced(Initial)
  {
  }

  /** A 0x10 byte is taken whatever the state: it sets the step count to 1,
      clears multiplier and unit, and keeps the segment bytes. */
  lemma ResetAccepted(s: DecoderState, b: bv8, now: int)
    requires Category(b) == 0x10
    ensures Step(s, b, now) ==
      FeedResult(s.(steps := 1, multiple := Unscaled, unit := None, lastCategory := 0x10), [], Completed)
  {
  }

  /** Any other byte out of sequence changes nothing. */
  lemma OutOfSequenceSkipped(s: DecoderState, b: bv8, now: int)
    requires Category(b) != 0x10 && Category(b) != s.lastCategory + 0x10
    ensures Step(s, b, now) == FeedResult(s, [], Completed)
  {
  }

  /** A byte of category 0x00 is never taken in a reachable state. */
  lemma ZeroCategoryNeverTaken(s: DecoderState, b: bv8, now: int)
    requires Inv(s) && Category(b) == 0x00
    ensures Step(s, b, now) == FeedResult(s, [], Completed)
  {
  }

  /** A stray byte inside a frame is dropped: the rest of the chunk is
      processed exactly as if it had not been there. */
  lemma {:induction false} StrayByteDropped(s: DecoderState, b: bv8, rest: seq<bv8>, now: int)
    requires Category(b) != 0x10 && Category(b) != s.lastCategory + 0x10
    ensures Run(s, [b] + rest, now) == Run(s, rest, now)
  {
    assert ([b] + rest)[0] == b;
    assert ([b] + rest)[1..] == rest;
    var r := Run(s, rest, now);
    assert [] + r.emitted == r.emitted;
  }

  /** Every step keeps Inv, and a step that does not stop the call keeps
      the state synced. */
  lemma StepPreservesInv(s: DecoderState, b: bv8, now: int)
    requires Inv(s)
    ensures var r := Step(s, b, now);
      && Inv(r.state)
      && (Synced(s) && r.outcome == Completed ==> Synced(r.state))
  {
    var cat := Category(b);
    if cat == 0x10 || cat - s.lastCategory == 0x10 {
      var r := if cat == 0x10 then s.(steps := 0, multiple := Unscaled, unit := None) else s;
      var t := r.(steps := r.steps + 1);
      if !(cat == 0xE0 && t.steps == 14) {
        var p := Payload(t, cat, Data(b));
        assert p.steps == t.steps && p.lastCategory == t.lastCategory;
      }
    }
  }

  /** Inv holds after any chunk; a chunk that completes keeps a synced
      state synced. */
  lemma {:induction false} RunPreservesInv(s: DecoderState, bytes: seq<bv8>, now: int)
    requires Inv(s)
    ensures var r := Run(s, bytes, now);
      && Inv(r.state)
      && (Synced(s) && r.outcome == Completed ==> Synced(r.state))
    decreases |bytes|
  {
    if bytes != [] {
      StepPreservesInv(s, bytes[0], now);
      var r := Step(s, bytes[0], now);
      if r.outcome == Completed {
        RunPreservesInv(r.state, bytes[1..], now);
      }
    }
  }

  /** In a synced state an accepted 0xE0 is the fourteenth step, so it
      completes the frame. */
  lemma SyncedEndCompletes(s: DecoderState, b: bv8, now: int)
    requires Synced(s) && Category(b) == 0xE0 && s.lastCategory == 0xD0
    ensures Step(s, b, now) == Complete(s.(steps := 14), now)
  {
  }

  /** Out of step (after a stopped call) an accepted 0xE0 completes nothing. */
  lemma UnsyncedEndIgnored(s: DecoderState, b: bv8, now: int)
    requires Inv(s) && !Synced(s) && Category(b) == 0xE0 && s.lastCategory == 0xD0
    ensures Step(s, b, now) == FeedResult(s.(steps := 15, lastCategory := 0xE0), [], Completed)
  {
  }

  /** The start time used for a frame completed at `now`. */
  function AnchoredStart(s: DecoderState, now: int): int
  {
    if s.startTime.Some? then s.startTime.value else now
  }

  /** A step emits at most one measurement, and one exactly when a 0xE0
      byte is the fourteenth step, the segments decode and a unit was
      seen; that measurement starts at the session's start time (anchored
      now if unset) and carries the decoded value and the unit. */
  lemma StepEmission(s: DecoderState, b: bv8, now: int)
    ensures var r := Step(s, b, now);
      && |r.emitted| <= 1
      && (|r.emitted| == 1 <==>
            && Category(b) == 0xE0 && s.lastCategory == 0xD0 && s.steps == 13
            && GetValue(s.seg, s.multiple).Success? && s.unit.Some?)
      && (|r.emitted| == 1 ==>
            r.emitted[0] == NewMeasurement(AnchoredStart(s, now), now - AnchoredStart(s, now),
                                           GetValue(s.seg, s.multiple).value, s.unit.value))
  {
  }

  /** The byte completes the frame: an in-sequence 0xE0 at step 14. */
  predicate Completing(s: DecoderState, b: bv8)
  {
    Category(b) == 0xE0 && s.lastCategory == 0xD0 && s.steps == 13
  }

  /** The start time is touched only by a completing byte, which anchors it
      (if unset) before the value is decoded, so also when the frame then
      faults or has no unit. */
  lemma StepStartTime(s: DecoderState, b: bv8, now: int)
    ensures Step(s, b, now).state.startTime ==
      if Completing(s, b) then Some(AnchoredStart(s, now)) else s.startTime
  {
  }

  /** A step stops the call exactly at a completing byte whose segments do
      not decode (reporting the first unmapped pattern) or, decoding, that
      saw no unit. A stopped step leaves the step count at 14 and the last
      category at 0xD0, with the start time anchored. */
  lemma StepOutcome(s: DecoderState, b: bv8, now: int)
    ensures var r := Step(s, b, now);
      var v := GetValue(s.seg, s.multiple);
      && (r.outcome.DecodeFault? <==> Completing(s, b) && v.Failure?)
      && (r.outcome.DecodeFault? ==> r.outcome.pattern == v.error)
      && (r.outcome == AbortedNoUnit <==> Completing(s, b) && v.Success? && s.unit.None?)
      && (r.outcome != Completed ==> r.state == s.(steps := 14, startTime := Some(AnchoredStart(s, now))))
  {
  }

  /** The start time is anchored once, at the first completing 0xE0, and
      never changes afterwards. */
  lemma {:induction false} RunStartTime(s: DecoderState, bytes: seq<bv8>, now: int)
    ensures var t := Run(s, bytes, now).state.startTime;
      t == s.startTime || (s.startTime.None? && t == Some(now))
    decreases |bytes|
  {
    if bytes != [] {
      var r := Step(s, bytes[0], now);
      StepStartTime(s, bytes[0], now);
      if r.outcome == Completed {
        RunStartTime(r.state, bytes[1..], now);
      }
    }
  }

  /** Every measurement of a chunk is consistent, is stamped with the
      clock reading of the call, and starts at the session's start time as
      it stands after the chunk. */
  lemma {:induction false} RunEmissions(s: DecoderState, bytes: seq<bv8>, now: int)
    ensures var r := Run(s, bytes, now);
      forall m <- r.emitted :: Consistent(m) && m.absoluteTime == now && r.state.startTime == Some(m.startTime)
    decreases |bytes|
  {
    if bytes != [] {
      var r := Step(s, bytes[0], now);
      StepEmission(s, bytes[0], now);
      if r.outcome == Completed {
        RunEmissions(r.state, bytes[1..], now);
        RunStartTime(r.state, bytes[1..], now);
      }
    }
  }

  /** Until a 0x10 byte arrives, a receiver that has taken nothing yet
      takes nothing: no byte is accepted and nothing is emitted. */
  lemma {:induction false} IdleWithoutReset(s: DecoderState, bytes: seq<bv8>, now: int)
    requires s.lastCategory == 0
    requires forall i :: 0 <= i < |bytes| ==> Category(bytes[i]) != 0x10
    ensures Run(s, bytes, now) == FeedResult(s, [], Completed)
    decreases |bytes|
  {
    if bytes != [] {
      IdleWithoutReset(s, bytes[1..], now);
    }
  }

  /** A fresh receiver fed a stream without 0x10 bytes never emits. */
  lemma FreshReceiverNeedsReset(bytes: seq<bv8>, now: int)
    requires forall i :: 0 <= i < |bytes| ==> Category(bytes[i]) != 0x10
    ensures Run(Initial, bytes, now).emitted == []
  {
    IdleWithoutReset(Initial, bytes, now);
  }

  /** Once a call stops (an unmapped pattern or a frame without unit), the
      remaining bytes of the chunk are not processed. */
  lemma StoppedCallDropsRest(s: DecoderState, p: seq<bv8>, q: seq<bv8>, now: int)
    requires Run(s, p, now).outcome != Completed
    ensures Run(s, p + q, now) == Run(s, p, now)
  {
    RunAppend(s, p, q, now);
  }

  /** The decode state persists across calls: two chunks that complete
      give what their concatenation gives in one call. */
  lemma ChunkBoundariesIrrelevant(s: DecoderState, p: seq<bv8>, q: seq<bv8>, now: int)
    requires Run(s, p, now).outcome == Completed
    ensures var a := Run(s, p, now);
      var b := Run(a.state, q, now);
      Run(s, p + q, now) == FeedResult(b.state, a.emitted + b.emitted, b.outcome)
  {
    RunAppend(s, p, q, now);
  }

  /** The even category that opens the byte pair of segment `k`. */
  function PairCategory(k: nat): (c: bv8)
    requires k < 4
  {
    [0x20, 0x40, 0x60, 0x80][k]
  }

  /** The two bytes that carry segment `k`, high nibble first. */
  function PairBytes(k: nat, hi: bv8, lo: bv8): seq<bv8>
    requires k < 4 && hi < 0x10 && lo < 0x10
  {
    [PairCategory(k) | hi, (PairCategory(k) + 0x10) | lo]
  }

  /** A byte whose step completes without emitting just moves the state on. */
  lemma RunQuietStep(s: DecoderState, b: bv8, rest: seq<bv8>, now: int, t: DecoderState)
    requires Step(s, b, now) == FeedResult(t, [], Completed)
    ensures Run(s, [b] + rest, now) == Run(t, rest, now)
  {
    assert ([b] + rest)[0] == b;
    assert ([b] + rest)[1..] == rest;
    var r := Run(t, rest, now);
    assert [] + r.emitted == r.emitted;
  }

  /** A prefix that completes without emitting just moves the state on. */
  lemma RunQuietPrefix(s: DecoderState, p: seq<bv8>, q: seq<bv8>, t: DecoderState, now: int)
    requires Run(s, p, now) == FeedResult(t, [], Completed)
    ensures Run(s, p + q, now) == Run(t, q, now)
  {
    RunAppend(s, p, q, now);
    var r := Run(t, q, now);
    assert [] + r.emitted == r.emitted;
  }

  /** A byte built from a category and a data nibble splits back into them. */
  lemma ComposeByte(c: bv8, d: bv8)
    requires c & 0x0F == 0 && d < 0x10
    ensures Category(c | d) == c as int && Data(c | d) == d
  {
  }

  /** The first byte of a pair stores its nibble in the high half of
      segment `k`. */
  lemma HighNibbleStep(s: DecoderState, k: nat, hi: bv8, now: int)
    requires k < 4 && hi < 0x10
    requires s.lastCategory == PairCategory(k) as int - 0x10
    ensures Step(s, PairCategory(k) | hi, now) ==
      FeedResult(s.(seg := s.seg[k := hi << 4], steps := s.steps + 1, lastCategory := PairCategory(k) as int), [], Completed)
  {
    ComposeByte(PairCategory(k), hi);
    assert k == 0 || k == 1 || k == 2 || k == 3;
  }

  /** The second byte of a pair ORs its nibble into segment `k`. */
  lemma LowNibbleStep(s: DecoderState, k: nat, lo: bv8, now: int)
    requires k < 4 && lo < 0x10
    requires s.lastCategory == PairCategory(k) as int
    ensures Step(s, (PairCategory(k) + 0x10) | lo, now) ==
      FeedResult(s.(seg := s.seg[k := s.seg[k] | lo], steps := s.steps + 1, lastCategory := PairCategory(k) as int + 0x10), [], Completed)
  {
    assert k == 0 || k == 1 || k == 2 || k == 3;
    ComposeByte(PairCategory(k) + 0x10, lo);
  }

  /** An in-sequence byte pair sets segment `k` to `(hi << 4) | lo` and
      changes no other segment. */
  lemma PairAssembles(s: DecoderState, k: nat, hi: bv8, lo: bv8, now: int)
    requires k < 4 && hi < 0x10 && lo < 0x10
    requires s.lastCategory == PairCategory(k) as int - 0x10
    ensures Run(s, PairBytes(k, hi, lo), now) ==
      FeedResult(s.(seg := s.seg[k := (hi << 4) | lo], steps := s.steps + 2,
                    lastCategory := PairCategory(k) as int + 0x10), [], Completed)
  {
    var c := PairCategory(k) as int;
    var s1 := s.(seg := s.seg[k := hi << 4], steps := s.steps + 1, lastCategory := c);
    var s2 := s.(seg := s.seg[k := (hi << 4) | lo], steps := s.steps + 2, lastCategory := c + 0x10);
    HighNibbleStep(s, k, hi, now);
    LowNibbleStep(s1, k, lo, now);
    assert s1.(seg := s1.seg[k := s1.seg[k] | lo], steps := s1.steps + 1, lastCategory := c + 0x10) == s2;
    RunQuietStep(s, PairCategory(k) | hi, [(PairCategory(k) + 0x10) | lo], now, s1);
    RunQuietStep(s1, (PairCategory(k) + 0x10) | lo, [], now, s2);
    assert PairBytes(k, hi, lo) == [PairCategory(k) | hi] + [(PairCategory(k) + 0x10) | lo];
    assert [(PairCategory(k) + 0x10) | lo] + [] == [(PairCategory(k) + 0x10) | lo];
  }

  /** The eight bytes that carry the four segments. */
  function SegmentBytes(seg: Segments): seq<bv8>
  {
    SegmentPair(0, seg[0]) + SegmentPair(1, seg[1]) + SegmentPair(2, seg[2]) + SegmentPair(3, seg[3])
  }

  /** Splitting a segment byte into nibbles and assembling them again
      gives the byte back. */
  lemma NibblesReassemble(x: bv8)
    ensures x >> 4 < 0x10 && ((x >> 4) << 4) | (x & 0x0F) == x
  {
  }

  /** The byte pair of segment `k`, split from the segment byte `x`. */
  function SegmentPair(k: nat, x: bv8): seq<bv8>
    requires k < 4
  {
    NibblesReassemble(x);
    PairBytes(k, x >> 4, x & 0x0F)
  }

  /** An in-sequence pair for segment `k` stores `x` there, leading to
      the state `t`; then the rest of the chunk runs from `t`. */
  lemma LoadSegment(s: DecoderState, k: nat, x: bv8, rest: seq<bv8>, now: int, t: DecoderState)
    requires k < 4 && s.lastCategory == PairCategory(k) as int - 0x10
    requires t == s.(seg := s.seg[k := x], steps := s.steps + 2, lastCategory := PairCategory(k) as int + 0x10)
    ensures Run(s, SegmentPair(k, x) + rest, now) == Run(t, rest, now)
  {
    NibblesReassemble(x);
    PairAssembles(s, k, x >> 4, x & 0x0F, now);
    RunQuietPrefix(s, SegmentPair(k, x), rest, t, now);
  }

  /** Two consecutive in-sequence pairs, for segments `k` and `k + 1`,
      lead to the state `t`. */
  lemma LoadTwoSegments(s: DecoderState, k: nat, x: bv8, y: bv8, rest: seq<bv8>, now: int, t: DecoderState)
    requires k == 0 || k == 2
    requires s.lastCategory == PairCategory(k) as int - 0x10
    requires t == s.(seg := s.seg[k := x][k + 1 := y], steps := s.steps + 4, lastCategory := PairCategory(k) as int + 0x30)
    ensures Run(s, SegmentPair(k, x) + (SegmentPair(k + 1, y) + rest), now) == Run(t, rest, now)
  {
    var c := PairCategory(k) as int;
    assert PairCategory(k + 1) as int == c + 0x20;
    var s1 := s.(seg := s.seg[k := x], steps := s.steps + 2, lastCategory := c + 0x10);
    LoadSegment(s, k, x, SegmentPair(k + 1, y) + rest, now, s1);
    LoadSegment(s1, k + 1, y, rest, now, t);
  }

  /** The segment bytes followed by `rest`, grouped pair by pair. */
  lemma SegmentBytesGrouped(seg: Segments, rest: seq<bv8>)
    ensures SegmentBytes(seg) + rest ==
      SegmentPair(0, seg[0]) + (SegmentPair(1, seg[1]) + (SegmentPair(2, seg[2]) + (SegmentPair(3, seg[3]) + rest)))
  {
  }

  /** After a 0x10 byte, the segment bytes load all four segments; the
      rest of the chunk runs from there. */
  lemma SegmentsLoad(s: DecoderState, seg: Segments, rest: seq<bv8>, now: int, t: DecoderState)
    requires s.lastCategory == 0x10
    requires t == s.(seg := seg, steps := s.steps + 8, lastCategory := 0x90)
    ensures Run(s, SegmentBytes(seg) + rest, now) == Run(t, rest, now)
  {
    SegmentBytesGrouped(seg, rest);
    var s2 := s.(seg := s.seg[0 := seg[0]][1 := seg[1]], steps := s.steps + 4, lastCategory := 0x50);
    LoadTwoSegments(s, 0, seg[0], seg[1], SegmentPair(2, seg[2]) + (SegmentPair(3, seg[3]) + rest), now, s2);
    assert s2.seg[2 := seg[2]][3 := seg[3]] == seg;
    LoadTwoSegments(s2, 2, seg[2], seg[3], rest, now, t);
  }

  /** An in-sequence flag byte applies its flags and moves on. */
  lemma FlagStep(s: DecoderState, c: bv8, d: bv8, rest: seq<bv8>, now: int)
    requires c == 0xA0 || c == 0xB0 || c == 0xC0 || c == 0xD0
    requires d < 0x10 && s.lastCategory == c as int - 0x10
    ensures Run(s, [c | d] + rest, now) ==
      Run(FlagNibble(s, c as int, d).(steps := s.steps + 1, lastCategory := c as int), rest, now)
  {
    ComposeByte(c, d);
    RunQuietStep(s, c | d, rest, now, FlagNibble(s, c as int, d).(steps := s.steps + 1, lastCategory := c as int));
  }

  /** The four flag bytes, for categories 0xA0 to 0xD0. */
  function FlagBytes(a: bv8, b: bv8, c: bv8, d: bv8): seq<bv8>
    requires a < 0x10 && b < 0x10 && c < 0x10 && d < 0x10
  {
    [0xA0 | a, 0xB0 | b, 0xC0 | c, 0xD0 | d]
  }

  /** The multiplier a frame's flag nibbles select, starting from none. */
  function FrameMultiple(a: bv8, b: bv8): Multiple
  {
    FlagsBMultiple(FlagsA(Unscaled, a), b)
  }

  /** The unit a frame's flag nibbles select, starting from none. */
  function FrameUnit(b: bv8, c: bv8, d: bv8): Option<MeasurementUnit>
  {
    FlagsD(FlagsC(FlagsBUnit(None, b), c), d)
  }

  /** The flag tests run in the source's order, so within a frame the last
      set bit tested wins: mega over milli over kilo over nano over micro. */
  lemma FrameMultiplePriority(a: bv8, b: bv8)
    ensures FrameMultiple(a, b) ==
      if b & 0x02 != 0 then Mega
      else if b & 0x08 != 0 then Milli
      else if a & 0x02 != 0 then Kilo
      else if a & 0x04 != 0 then Nano
      else if a & 0x08 != 0 then Micro
      else Unscaled
  {
  }

  /** Likewise for the unit: hertz over volt over ampere over ohm over
      farad over percent, and no unit when no unit bit is set. */
  lemma FrameUnitPriority(b: bv8, c: bv8, d: bv8)
    ensures FrameUnit(b, c, d) ==
      if d & 0x02 != 0 then Some(Hertz)
      else if d & 0x04 != 0 then Some(Volt)
      else if d & 0x08 != 0 then Some(Ampere)
      else if c & 0x04 != 0 then Some(Ohm)
      else if c & 0x08 != 0 then Some(Farad)
      else if b & 0x04 != 0 then Some(Percent)
      else None
  {
  }

  /** The 0x01 bit of a flag nibble selects nothing, and neither does the
      0x02 bit of category 0xC0. */
  lemma UnusedFlagBits(s: DecoderState, cat: int, data: bv8)
    ensures FlagNibble(s, cat, data) == FlagNibble(s, cat, data & 0x0E)
    ensures cat == 0xC0 ==> FlagNibble(s, cat, data) == FlagNibble(s, cat, data & 0x0C)
  {
  }

  /** A flag byte acts the same with its lowest bit cleared. */
  lemma FlagBitZeroIgnored(s: DecoderState, b: bv8, now: int)
    requires 0xA0 <= Category(b) <= 0xD0
    ensures Step(s, b, now) == Step(s, b & 0xFE, now)
  {
    assert Category(b & 0xFE) == Category(b) && Data(b & 0xFE) == Data(b) & 0x0E;
    UnusedFlagBits(s, Category(b), Data(b));
  }

  /** After the segment bytes, the flag bytes set the multiplier and the
      unit, each starting from what the state held. */
  lemma FlagsLoad(s: DecoderState, a: bv8, b: bv8, c: bv8, d: bv8, rest: seq<bv8>, now: int, t: DecoderState)
    requires a < 0x10 && b < 0x10 && c < 0x10 && d < 0x10
    requires s.lastCategory == 0x90
    requires t == s.(multiple := FlagsBMultiple(FlagsA(s.multiple, a), b),
                     unit := FlagsD(FlagsC(FlagsBUnit(s.unit, b), c), d),
                     steps := s.steps + 4, lastCategory := 0xD0)
    ensures Run(s, FlagBytes(a, b, c, d) + rest, now) == Run(t, rest, now)
  {
    assert FlagBytes(a, b, c, d) + rest == [0xA0 | a] + ([0xB0 | b] + ([0xC0 | c] + ([0xD0 | d] + rest)));
    var s2 := s.(multiple := FlagsBMultiple(FlagsA(s.multiple, a), b), unit := FlagsBUnit(s.unit, b),
                 steps := s.steps + 2, lastCategory := 0xB0);
    MultiplierFlagsLoad(s, a, b, [0xC0 | c] + ([0xD0 | d] + rest), now);
    UnitFlagsLoad(s2, c, d, rest, now);
  }

  /** The 0xA0 and 0xB0 flag bytes. */
  lemma MultiplierFlagsLoad(s: DecoderState, a: bv8, b: bv8, rest: seq<bv8>, now: int)
    requires a < 0x10 && b < 0x10 && s.lastCategory == 0x90
    ensures Run(s, [0xA0 | a] + ([0xB0 | b] + rest), now) ==
      Run(s.(multiple := FlagsBMultiple(FlagsA(s.multiple, a), b), unit := FlagsBUnit(s.unit, b),
             steps := s.steps + 2, lastCategory := 0xB0), rest, now)
  {
    var s1 := s.(multiple := FlagsA(s.multiple, a), steps := s.steps + 1, lastCategory := 0xA0);
    FlagStep(s, 0xA0, a, [0xB0 | b] + rest, now);
    FlagStep(s1, 0xB0, b, rest, now);
  }

  /** The 0xC0 and 0xD0 flag bytes. */
  lemma UnitFlagsLoad(s: DecoderState, c: bv8, d: bv8, rest: seq<bv8>, now: int)
    requires c < 0x10 && d < 0x10 && s.lastCategory == 0xB0
    ensures Run(s, [0xC0 | c] + ([0xD0 | d] + rest), now) ==
      Run(s.(unit := FlagsD(FlagsC(s.unit, c), d), steps := s.steps + 2, lastCategory := 0xD0), rest, now)
  {
    var s1 := s.(unit := FlagsC(s.unit, c), steps := s.steps + 1, lastCategory := 0xC0);
    FlagStep(s, 0xC0, c, [0xD0 | d] + rest, now);
    FlagStep(s1, 0xD0, d, rest, now);
  }

  /** The fourteen bytes the meter sends for one reading: the segment
      bytes `seg` and the data nibbles `n` of the 0x10, 0xA0, 0xB0, 0xC0,
      0xD0 and 0xE0 bytes. */
  function Frame(seg: Segments, n: seq<bv8>): seq<bv8>
    requires |n| == 6 && forall i :: 0 <= i < 6 ==> n[i] < 0x10
  {
    [0x10 | n[0]] + SegmentBytes(seg) + FlagBytes(n[1], n[2], n[3], n[4]) + [0xE0 | n[5]]
  }

  /** Whatever state the receiver is in, a whole frame resynchronises it:
      the frame is decoded from its own bytes alone (only the session's
      start time carries over) and completes at the 0xE0 byte. */
  lemma FrameDecodes(s: DecoderState, seg: Segments, n: seq<bv8>, now: int)
    requires |n| == 6 && forall i :: 0 <= i < 6 ==> n[i] < 0x10
    ensures Run(s, Frame(seg, n), now) ==
      Complete(DecoderState(seg, 0xD0, 14, FrameMultiple(n[1], n[2]), FrameUnit(n[2], n[3], n[4]), s.startTime), now)
  {
    var e := [0xE0 | n[5]];
    var f := FlagBytes(n[1], n[2], n[3], n[4]);
    assert Frame(seg, n) == [0x10 | n[0]] + (SegmentBytes(seg) + (f + e));
    var s1 := s.(steps := 1, multiple := Unscaled, unit := None, lastCategory := 0x10);
    ResetStep(s, n[0], SegmentBytes(seg) + (f + e), now, s1);
    var s9 := DecoderState(seg, 0x90, 9, Unscaled, None, s.startTime);
    SegmentsLoad(s1, seg, f + e, now, s9);
    var s13 := DecoderState(seg, 0xD0, 13, FrameMultiple(n[1], n[2]), FrameUnit(n[2], n[3], n[4]), s.startTime);
    FlagsLoad(s9, n[1], n[2], n[3], n[4], e, now, s13);
    EndStep(s13, n[5], now);
  }

  /** A 0x10 byte starts a frame from any state. */
  lemma ResetStep(s: DecoderState, d: bv8, rest: seq<bv8>, now: int, t: DecoderState)
    requires d < 0x10
    requires t == s.(steps := 1, multiple := Unscaled, unit := None, lastCategory := 0x10)
    ensures Run(s, [0x10 | d] + rest, now) == Run(t, rest, now)
  {
    ComposeByte(0x10, d);
    ResetAccepted(s, 0x10 | d, now);
    RunQuietStep(s, 0x10 | d, rest, now, t);
  }

  /** The 0xE0 byte after thirteen in-sequence bytes completes the frame. */
  lemma EndStep(s: DecoderState, d: bv8, now: int)
    requires d < 0x10 && s.lastCategory == 0xD0 && s.steps == 13
    ensures Run(s, [0xE0 | d], now) == Complete(s.(steps := 14), now)
  {
    ComposeByte(0xE0, d);
    RunSingle(s, 0xE0 | d, now);
  }

  /** A one-byte chunk is one step. */
  lemma RunSingle(s: DecoderState, b: bv8, now: int)
    ensures Run(s, [b], now) == Step(s, b, now)
  {
    var r := Step(s, b, now);
    assert [b][1..] == [];
    assert r.emitted + [] == r.emitted;
  }
}
