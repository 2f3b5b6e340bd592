/** Frames the meter sends, decoded from a fresh receiver: the sample
    vectors kept beside the decoder loop of MeasurementDataReceiverModel.cs. */
module DecoderSamples {
  import opened Wrappers
  import opened Decimal
  import opened Measurements
  import opened DataReceiver
  import opened DataReceiverProperties

  /** 10.72 nF: digits 1, 0, 7, 2 with the decimal point on position 2,
      the nano flag in the 0xA0 nibble and the farad flag in the 0xC0
      nibble. The first measurement of a session starts at the clock
      reading of the call. */
  lemma SampleNanoFarads(bytes: seq<bv8>, now: int)
    requires bytes == [0x13, 0x20, 0x35, 0x47, 0x5D, 0x69, 0x75, 0x85, 0x9B, 0xA4, 0xB0, 0xC9, 0xD0, 0xE8]
    ensures Run(Initial, bytes, now)
         == FeedResult(DecoderState([0x05, 0x7D, 0x95, 0x5B], 0xE0, 14, Nano, Some(Farad), Some(now)),
                       [NewMeasurement(now, 0, Finite(0.00000001072), Farad)], Completed)
  {
    var seg: Segments := [0x05, 0x7D, 0x95, 0x5B];
    var n: seq<bv8> := [3, 4, 0, 9, 0, 8];
    assert Frame(seg, n) == bytes;
    FrameDecodes(Initial, seg, n, now);
    assert FrameMultiple(4, 0) == Nano && FrameUnit(0, 9, 0) == Some(Farad);
    NanoFaradsValue();
  }

  /** The segments of the 10.72 nF frame read 1072 with two decimals, in
      nano. */
  lemma NanoFaradsValue()
    ensures GetValue([0x05, 0x7D, 0x95, 0x5B], Nano) == Success(Finite(0.00000001072))
  {
    var seg: Segments := [0x05, 0x7D, 0x95, 0x5B];
    assert Lookup(seg[0]) == Success(Num(1)) && Lookup(seg[1]) == Success(Num(0));
    assert Lookup(seg[2]) == Success(Num(7)) && Lookup(seg[3]) == Success(Num(2));
    assert ApplyDecimalPoints(seg, 1072.0) == 10.72;
    assert Pow10(-9) == 0.000000001;
  }

  /** -000.4 mV: the sign mark on position 0, digits 0, 0, 0, 4 with the
      decimal point on position 3, the milli flag in the 0xB0 nibble and
      the volt flag in the 0xD0 nibble. */
  lemma SampleNegativeMilliVolts(bytes: seq<bv8>, now: int)
    requires bytes == [0x17, 0x2F, 0x3D, 0x47, 0x5D, 0x67, 0x7D, 0x8A, 0x97, 0xA0, 0xB8, 0xC0, 0xD4, 0xE8]
    ensures Run(Initial, bytes, now)
         == FeedResult(DecoderState([0xFD, 0x7D, 0x7D, 0xA7], 0xE0, 14, Milli, Some(Volt), Some(now)),
                       [NewMeasurement(now, 0, Finite(-0.0004), Volt)], Completed)
  {
    var seg: Segments := [0xFD, 0x7D, 0x7D, 0xA7];
    var n: seq<bv8> := [7, 0, 8, 0, 4, 8];
    assert Frame(seg, n) == bytes;
    FrameDecodes(Initial, seg, n, now);
    assert FrameMultiple(0, 8) == Milli && FrameUnit(8, 0, 4) == Some(Volt);
    NegativeMilliVoltsValue();
  }

  /** The segments of the -000.4 mV frame read -0.4 in milli. */
  lemma NegativeMilliVoltsValue()
    ensures GetValue([0xFD, 0x7D, 0x7D, 0xA7], Milli) == Success(Finite(-0.0004))
  {
    var seg: Segments := [0xFD, 0x7D, 0x7D, 0xA7];
    assert Lookup(seg[0]) == Success(Num(0)) && Lookup(seg[1]) == Success(Num(0));
    assert Lookup(seg[2]) == Success(Num(0)) && Lookup(seg[3]) == Success(Num(4));
    assert ApplyDecimalPoints(seg, 4.0) == 0.4;
    assert Pow10(-3) == 0.001;
  }

  /** The diode range with no diode attached: blank positions 0, 2 and 3
      (pattern 0x68 on position 2), so the value is +infinity; the 0x01
      bit of the 0xA0 nibble selects no multiplier, and the volt flag is
      set. */
  lemma SampleOpenDiode(bytes: seq<bv8>, now: int)
    requires bytes == [0x11, 0x20, 0x30, 0x4F, 0x5D, 0x66, 0x78, 0x80, 0x90, 0xA1, 0xB0, 0xC0, 0xD4, 0xE8]
    ensures Run(Initial, bytes, now)
         == FeedResult(DecoderState([0x00, 0xFD, 0x68, 0x00], 0xE0, 14, Unscaled, Some(Volt), Some(now)),
                       [NewMeasurement(now, 0, Infinite(false), Volt)], Completed)
  {
    var seg: Segments := [0x00, 0xFD, 0x68, 0x00];
    var n: seq<bv8> := [1, 1, 0, 0, 4, 8];
    assert Frame(seg, n) == bytes;
    FrameDecodes(Initial, seg, n, now);
    assert FrameMultiple(1, 0) == Unscaled && FrameUnit(0, 0, 4) == Some(Volt);
    OpenDiodeValue();
  }

  /** The segments of the open-diode frame hold blanks, so they read as
      +infinity. */
  lemma OpenDiodeValue()
    ensures GetValue([0x00, 0xFD, 0x68, 0x00], Unscaled) == Success(Infinite(false))
  {
    var seg: Segments := [0x00, 0xFD, 0x68, 0x00];
    assert Lookup(seg[0]) == Success(Blank) && Lookup(seg[1]) == Success(Num(0));
    assert Lookup(seg[2]) == Success(Blank) && Lookup(seg[3]) == Success(Blank);
  }

  /** -6.6 mV, the vector left active in the commented-out test array
      (line 116 of MeasurementDataReceiverModel.cs): the sign mark
      on position 0, digits 0, 0, 6, 6 with the decimal point on position
      3, milli and volt. */
  lemma SampleSixMilliVolts(bytes: seq<bv8>, now: int)
    requires bytes == [0x17, 0x2F, 0x3D, 0x47, 0x5D, 0x67, 0x7E, 0x8F, 0x9E, 0xA0, 0xB8, 0xC0, 0xD4, 0xE8]
    ensures Run(Initial, bytes, now)
         == FeedResult(DecoderState([0xFD, 0x7D, 0x7E, 0xFE], 0xE0, 14, Milli, Some(Volt), Some(now)),
                       [NewMeasurement(now, 0, Finite(-0.0066), Volt)], Completed)
  {
    var seg: Segments := [0xFD, 0x7D, 0x7E, 0xFE];
    var n: seq<bv8> := [7, 0, 8, 0, 4, 8];
    assert Frame(seg, n) == bytes;
    FrameDecodes(Initial, seg, n, now);
    assert FrameMultiple(0, 8) == Milli && FrameUnit(8, 0, 4) == Some(Volt);
    SixMilliVoltsValue();
  }

  /** The segments of the -6.6 mV frame read -6.6 in milli. */
  lemma SixMilliVoltsValue()
    ensures GetValue([0xFD, 0x7D, 0x7E, 0xFE], Milli) == Success(Finite(-0.0066))
  {
    var seg: Segments := [0xFD, 0x7D, 0x7E, 0xFE];
    assert Lookup(seg[0]) == Success(Num(0)) && Lookup(seg[1]) == Success(Num(0));
    assert Lookup(seg[2]) == Success(Num(6)) && Lookup(seg[3]) == Success(Num(6));
    assert ApplyDecimalPoints(seg, 66.0) == 6.6;
    assert Pow10(-3) == 0.001;
  }

  /** 0.000 Hz: digits 0, 0, 0, 0 with the decimal point on position 3
      and the hertz flag in the 0xD0 nibble. */
  lemma SampleZeroHertz(bytes: seq<bv8>, now: int)
    requires bytes == [0x11, 0x27, 0x3D, 0x47, 0x5D, 0x67, 0x7D, 0x8F, 0x9D, 0xA0, 0xB0, 0xC0, 0xD2, 0xE8]
    ensures Run(Initial, bytes, now)
         == FeedResult(DecoderState([0x7D, 0x7D, 0x7D, 0xFD], 0xE0, 14, Unscaled, Some(Hertz), Some(now)),
                       [NewMeasurement(now, 0, Finite(0.0), Hertz)], Completed)
  {
    var seg: Segments := [0x7D, 0x7D, 0x7D, 0xFD];
    var n: seq<bv8> := [1, 0, 0, 0, 2, 8];
    assert Frame(seg, n) == bytes;
    FrameDecodes(Initial, seg, n, now);
    assert FrameMultiple(0, 0) == Unscaled && FrameUnit(0, 0, 2) == Some(Hertz);
    ZeroValue();
  }

  /** 0.000 %: the same display with the percent flag in the 0xB0 nibble. */
  lemma SampleZeroPercent(bytes: seq<bv8>, now: int)
    requires bytes == [0x11, 0x27, 0x3D, 0x47, 0x5D, 0x67, 0x7D, 0x8F, 0x9D, 0xA0, 0xB4, 0xC0, 0xD0, 0xE8]
    ensures Run(Initial, bytes, now)
         == FeedResult(DecoderState([0x7D, 0x7D, 0x7D, 0xFD], 0xE0, 14, Unscaled, Some(Percent), Some(now)),
                       [NewMeasurement(now, 0, Finite(0.0), Percent)], Completed)
  {
    var seg: Segments := [0x7D, 0x7D, 0x7D, 0xFD];
    var n: seq<bv8> := [1, 0, 4, 0, 0, 8];
    assert Frame(seg, n) == bytes;
    FrameDecodes(Initial, seg, n, now);
    assert FrameMultiple(0, 4) == Unscaled && FrameUnit(4, 0, 0) == Some(Percent);
    ZeroValue();
  }

  /** The four zeros of the 0.000 displays read zero. */
  lemma ZeroValue()
    ensures GetValue([0x7D, 0x7D, 0x7D, 0xFD], Unscaled) == Success(Finite(0.0))
  {
    var seg: Segments := [0x7D, 0x7D, 0x7D, 0xFD];
    assert Lookup(seg[0]) == Success(Num(0)) && Lookup(seg[1]) == Success(Num(0));
    assert Lookup(seg[2]) == Success(Num(0)) && Lookup(seg[3]) == Success(Num(0));
    assert ApplyDecimalPoints(seg, 0.0) == 0.0;
    assert Pow10(0) == 1.0;
  }
}
