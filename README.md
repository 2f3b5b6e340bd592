# MultimeterLogger decoder core in Dafny

MultimeterLogger reads a digital multimeter over a 2400-baud serial line. The
meter repeats one 14-byte frame per reading. The high nibble of each byte is
its category (0x10 to 0xE0); the low nibble is its data.
- Bytes 0x20 to 0x90 carry the four seven-segment display bytes, a nibble at
  a time.
- Bytes 0xA0 to 0xD0 carry flag bits that select a power-of-ten multiplier
  and a unit.
- Byte 0xE0 ends the frame. When it is the fourteenth step, the receiver
  decodes the display into a number, wraps it in a `Measurement`, and
  publishes it.

This project models that decoder and the measurement value type it builds.

- `wrappers.dfy` (`Wrappers`): `Option` and `Result`.
- `decimal.dfy` (`Decimal`): exact powers of ten over any integer exponent,
  and the decimal rendering of an `int`. These replace `Math.Pow`, the
  `double` divisions and C#'s integer-to-string in concatenation.
- `measurement.dfy` (`Measurements`), from `Measurement.cs`:
  - the unit enumeration;
  - the measurement record and its constructor;
  - `ConvertUnit` and `PowerToMultiple`;
  - `GetFriendlyValue` as a method with its two scaling loops, proved equal to
    the specification function `FriendlyText`;
  - the properties of the normalisation those loops perform.
- `receiver.dfy` (`DataReceiver`), from `MeasurementDataReceiverModel.cs`:
  - the digit table, `Multiple` and `GetValue`;
  - the byte loop of `ProcessReceivedData`, twice: as the functions `Step` and
    `Run` over a `DecoderState` value, and as the class `Receiver`;
  - `Receiver` holds the context's fields, its four-byte segment `array` and
    the session start time, and updates them in place. `Feed` is proved to
    produce exactly what `Run` produces.
- `receiver_lemmas.dfy` (`DataReceiverProperties`): properties of the loop:
  - which bytes are taken and which are skipped;
  - the step/category invariant;
  - exactly when a measurement is emitted;
  - the start-time anchor;
  - how segments are assembled and how the flag bits take priority;
  - that a whole frame decodes from any state.
- `value_lemmas.dfy` (`ValueProperties`): the digit table and `GetValue`:
  - which patterns fault;
  - when the value is infinite;
  - the closed form `±(digits / 10^shift) * 10^multiplier`;
  - the sign mark.
- `samples.dfy` (`DecoderSamples`): the six frames kept in comments beside
  the loop, each decoded from a fresh receiver to its exact measurement.

Two edge cases of `GetFriendlyValue` are modelled as the code has them:
- A value too small for any prefix renders as "0" immediately followed by the
  unit symbol (for example "0%"), with no space.
- An exponent without a prefix renders as the text "(Invalid:<n>)".

## Model

| member | source | states |
|---|---|---|
| Measurements.NewMeasurement | MultimeterLogger/Measurement.cs:23-32 | the record keeps unit, value, start time and elapsed span as given; its absolute time is start plus span and its chart ordinate equals the value |
| Measurements.Measurement.FriendlyValue | MultimeterLogger/Measurement.cs:34 | the display text depends on the value and unit only, and ends in the unit's symbol |
| Measurements.ConvertUnit | MultimeterLogger/Measurement.cs:56-75 | every unit has a one- or two-character symbol |
| Measurements.ConvertUnitInjective | MultimeterLogger/Measurement.cs:56-75 | no two units share a symbol |
| Measurements.PowerToMultiple | MultimeterLogger/Measurement.cs:77-100 | the multiples of three from -12 to 9 (and only they) get a prefix of at most one character, empty exactly for 0; any other power gives "(Invalid:" ... ")" |
| Measurements.SiPrefix | MultimeterLogger/Measurement.cs:79-96 | the eight switch cases give at most one character, empty exactly for power 0 |
| Measurements.InvalidPower | MultimeterLogger/Measurement.cs:97-98 | the default case wraps the power's decimal digits in "(Invalid:" and ")" |
| Measurements.PrefixesDistinct | MultimeterLogger/Measurement.cs:81-96 | the eight prefixes are pairwise distinct |
| Measurements.PowerToMultipleInjective | MultimeterLogger/Measurement.cs:77-99 | different powers never render the same text |
| Decimal.IntToString | MultimeterLogger/Measurement.cs:98 | the rendering of an int is non-empty and starts with '-' exactly for negatives |
| Decimal.IntToStringInjective | MultimeterLogger/Measurement.cs:98 | distinct ints render as distinct strings (via the round trip ParseNat(NatToString(n)) == n) |
| Decimal.ParseNatToString | MultimeterLogger/Measurement.cs:98 | reading back the digits of a natural number gives the number |
| Measurements.GetFriendlyValue | MultimeterLogger/Measurement.cs:37-54 | the two loops and the final concatenation compute FriendlyText(value, unit, format) |
| Measurements.MantissaTimes1000 | MultimeterLogger/Measurement.cs:42-46 | one turn of the first loop keeps aux == value * 10^-power |
| Measurements.MantissaOver1000 | MultimeterLogger/Measurement.cs:47-51 | one turn of the second loop keeps aux == value * 10^-power |
| Measurements.ScaleUpBounds | MultimeterLogger/Measurement.cs:42-46 | the first loop leaves power a multiple of three in [-15, 0], stops past -12 or with magnitude at least 1, and keeps the magnitude under 1000 |
| Measurements.ScaleUpSpec | MultimeterLogger/Measurement.cs:42-46 | the first loop's result satisfies a == value * 10^-p |
| Measurements.ScaleUpNext | MultimeterLogger/Measurement.cs:42-46 | the rest of the first loop after one turn keeps a == value * 10^-p |
| Measurements.ScaleDownExponent | MultimeterLogger/Measurement.cs:47-51 | the second loop raises the power by a multiple of three |
| Measurements.ScaleDownSpec | MultimeterLogger/Measurement.cs:47-51 | the second loop's result satisfies a == value * 10^-p |
| Measurements.ScaleDownNext | MultimeterLogger/Measurement.cs:47-51 | the rest of the second loop after one turn keeps a == value * 10^-p |
| Measurements.ScaleDownBounds | MultimeterLogger/Measurement.cs:47-51 | the second loop ends with magnitude under 1000, keeps a magnitude of at least 1, and does nothing to a mantissa already under 1000 |
| Measurements.NormalizeInvariant | MultimeterLogger/Measurement.cs:39-51 | after both loops power % 3 == 0, power >= -15, aux == value * 10^-power, abs(aux) < 1000, and abs(aux) >= 1 whenever power >= -12 |
| Measurements.MantissaBrackets | MultimeterLogger/Measurement.cs:42-51 | the loop tests on the mantissa are tests of abs(value) against 10^p and 10^(p+3) |
| Measurements.NormalizeZeroCase | MultimeterLogger/Measurement.cs:42-53 | the "0" branch is taken exactly when abs(value) < 10^-12 |
| Measurements.NormalizeRange | MultimeterLogger/Measurement.cs:42-51 | otherwise 10^power <= abs(value) < 10^(power+3) |
| Measurements.LargeValueHasNoPrefix | MultimeterLogger/Measurement.cs:47-51 | magnitudes of 10^12 or more end with power >= 12, which has no prefix |
| Measurements.InRangeValueHasPrefix | MultimeterLogger/Measurement.cs:42-51 | magnitudes from 10^-12 up to 10^12 end with a prefixed power |
| Measurements.FriendlyTextSmall | MultimeterLogger/Measurement.cs:53 | below 10^-12 the text is "0" directly followed by the unit symbol |
| Measurements.FriendlyTextScaled | MultimeterLogger/Measurement.cs:53 | otherwise it is format(a) + " " + prefix + unit symbol with value == a * 10^p, 1 <= abs(a) < 1000, p >= -12 a multiple of three |
| Measurements.FriendlyKiloVolts | MultimeterLogger/Measurement.cs:37-54 | 1500 V renders as format(1.5) + " kV" |
| Measurements.FriendlyNanoFarads | MultimeterLogger/Measurement.cs:37-54 | 10.72e-9 F renders as format(10.72) + " ηF" |
| Measurements.FriendlyZeroPercent | MultimeterLogger/Measurement.cs:37-54 | zero percent renders as "0%" |
| DataReceiver.Multiple.Exponent | MultimeterLogger/MeasurementDataReceiverModel.cs:77-85 | each multiple's power is a multiple of three in [-9, 6], zero exactly for None |
| DataReceiver.Category | MultimeterLogger/MeasurementDataReceiverModel.cs:129 | the category is a multiple of 0x10 no larger than 0xF0 |
| DataReceiver.Data | MultimeterLogger/MeasurementDataReceiverModel.cs:130 | the data nibble is below 0x10 |
| DataReceiver.Pattern | MultimeterLogger/MeasurementDataReceiverModel.cs:89-92 | the lookup key is below 0x80 |
| DataReceiver.Lookup | MultimeterLogger/MeasurementDataReceiverModel.cs:89-92 | a position succeeds exactly when its pattern is in the table, with the table's digit, and otherwise fails with the pattern |
| ValueProperties.DigitPatternDecodes | MultimeterLogger/MeasurementDataReceiverModel.cs:64-73 | each of the ten digit patterns decodes to its digit |
| ValueProperties.TableShape | MultimeterLogger/MeasurementDataReceiverModel.cs:60-75 | the table's blanks are exactly 0x00 and 0x68 and every other entry is a digit's own pattern |
| ValueProperties.TableKeys | MultimeterLogger/MeasurementDataReceiverModel.cs:60-75 | the table's keys are exactly the ten digit patterns, 0x00 and 0x68 |
| ValueProperties.GetValueFails | MultimeterLogger/MeasurementDataReceiverModel.cs:89-92 | GetValue fails exactly when some pattern is missing from the table |
| ValueProperties.GetValueFault | MultimeterLogger/MeasurementDataReceiverModel.cs:89-92 | a failure reports the first missing pattern, in position order |
| ValueProperties.SameLookups | MultimeterLogger/MeasurementDataReceiverModel.cs:89-92 | segments whose four lookups agree fail alike or combine the same digits |
| ValueProperties.GetValueMapped | MultimeterLogger/MeasurementDataReceiverModel.cs:87-101 | with every pattern known GetValue combines the four table digits |
| ValueProperties.CombineInfinite | MultimeterLogger/MeasurementDataReceiverModel.cs:89-97 | the value is infinite exactly when a digit is blank, negative exactly when position 0 is marked |
| ValueProperties.AnyBlankDigits | MultimeterLogger/MeasurementDataReceiverModel.cs:89-92 | some position is blank exactly when one of the four digits is |
| ValueProperties.GetValueInfinite | MultimeterLogger/MeasurementDataReceiverModel.cs:87-102 | with every pattern known the result is infinite exactly when some position is blank, signed by the mark on position 0 |
| ValueProperties.ShiftDivides | MultimeterLogger/MeasurementDataReceiverModel.cs:94-96 | the three decimal-point divisions add up to one division by 10^(1+2+3 for the marked positions) |
| ValueProperties.CombineDigits | MultimeterLogger/MeasurementDataReceiverModel.cs:89-99 | four digits give ±(1000·d0 + 100·d1 + 10·d2 + d3) / 10^shift · 10^multiple |
| ValueProperties.GetValueFinite | MultimeterLogger/MeasurementDataReceiverModel.cs:87-102 | a display of four known digits reads ±(digits / 10^shift) · 10^multiple |
| ValueProperties.MarksOnOneAndThree | MultimeterLogger/MeasurementDataReceiverModel.cs:94-96 | points on positions 1 and 3 together divide by 10^4 |
| ValueProperties.ScaledNegates | MultimeterLogger/MeasurementDataReceiverModel.cs:97-99 | negating before the multiplier is negating after it |
| ValueProperties.CombineSign | MultimeterLogger/MeasurementDataReceiverModel.cs:97 | the same digits under opposite sign marks give opposite readings |
| ValueProperties.SignMarkNegates | MultimeterLogger/MeasurementDataReceiverModel.cs:97 | displays that differ only in the sign mark fault alike or read opposite values |
| DataReceiver.RunAppend | MultimeterLogger/MeasurementDataReceiverModel.cs:126-199 | the loop over a concatenation is the loop over the first part, then, unless stopped, over the second |
| DataReceiver.RunSnoc | MultimeterLogger/MeasurementDataReceiverModel.cs:126-199 | one more byte after a run that did not stop is one more iteration |
| DataReceiver.Receiver.constructor | MultimeterLogger/MeasurementDataReceiverModel.cs:52-58 | a new context has zero category and steps, no multiplier, no unit, no start time |
| DataReceiver.Receiver.Feed | MultimeterLogger/MeasurementDataReceiverModel.cs:126-199 | the in-place loop leaves the fields and returns the measurements and outcome that Run gives |
| DataReceiver.Receiver.AcceptByte | MultimeterLogger/MeasurementDataReceiverModel.cs:132-198 | the body for a taken byte performs Accept on the fields |
| DataReceiver.Receiver.StoreNibble | MultimeterLogger/MeasurementDataReceiverModel.cs:149-156 | the segment cases update the array as SegmentNibble says |
| DataReceiver.Receiver.SetHigh | MultimeterLogger/MeasurementDataReceiverModel.cs:149 | segment k becomes data << 4 and nothing else changes |
| DataReceiver.Receiver.SetLow | MultimeterLogger/MeasurementDataReceiverModel.cs:150 | data is ORed into segment k and nothing else changes |
| DataReceiver.Receiver.ApplyFlags | MultimeterLogger/MeasurementDataReceiverModel.cs:157-186 | the flag cases update multiplier and unit as FlagNibble says |
| DataReceiver.Receiver.CompleteFrame | MultimeterLogger/MeasurementDataReceiverModel.cs:187-195 | the completing case anchors the start time, faults, returns without a unit, or emits the measurement |
| DataReceiverProperties.InitialSynced | MultimeterLogger/MeasurementDataReceiverModel.cs:56 | a new context starts with steps in line with its last category |
| DataReceiverProperties.ResetAccepted | MultimeterLogger/MeasurementDataReceiverModel.cs:132-143 | a 0x10 byte is taken in any state: steps 1, no multiplier, no unit, last category 0x10, segments kept |
| DataReceiverProperties.OutOfSequenceSkipped | MultimeterLogger/MeasurementDataReceiverModel.cs:139-141 | any other byte not one category above the last is skipped and changes nothing |
| DataReceiverProperties.ZeroCategoryNeverTaken | MultimeterLogger/MeasurementDataReceiverModel.cs:139-141 | a 0x00-category byte is never taken in a reachable state |
| DataReceiverProperties.StrayByteDropped | MultimeterLogger/MeasurementDataReceiverModel.cs:139-141 | a stray byte is dropped: the chunk decodes as if it were absent |
| DataReceiverProperties.StepPreservesInv | MultimeterLogger/MeasurementDataReceiverModel.cs:132-198 | each byte keeps steps equal to last category / 0x10 (or one more after a stopped call) |
| DataReceiverProperties.RunPreservesInv | MultimeterLogger/MeasurementDataReceiverModel.cs:126-199 | the invariant holds after every chunk, and a completed chunk keeps the state synced |
| DataReceiverProperties.SyncedEndCompletes | MultimeterLogger/MeasurementDataReceiverModel.cs:187-195 | in a synced state an in-sequence 0xE0 is step 14 and completes the frame |
| DataReceiverProperties.UnsyncedEndIgnored | MultimeterLogger/MeasurementDataReceiverModel.cs:188 | after a stopped call an in-sequence 0xE0 is step 15 and completes nothing |
| DataReceiverProperties.StepEmission | MultimeterLogger/MeasurementDataReceiverModel.cs:187-195 | a byte emits at most one measurement, exactly when it is a 0xE0 at step 14 with decodable segments and a unit, carrying that value and unit |
| DataReceiverProperties.StepStartTime | MultimeterLogger/MeasurementDataReceiverModel.cs:187-189 | the start time changes only at a completing byte (an in-sequence 0xE0 at step 14), which anchors it at the clock reading if unset, before the value is decoded |
| DataReceiverProperties.StepOutcome | MultimeterLogger/MeasurementDataReceiverModel.cs:187-198 | a step stops the call exactly at a completing byte whose segments fault (reporting the first unmapped pattern) or that saw no unit; a stopped step leaves steps 14, last category 0xD0 and the start time anchored |
| DataReceiverProperties.RunStartTime | MultimeterLogger/MeasurementDataReceiverModel.cs:189 | a chunk keeps the start time or anchors an unset one, never changing a set one |
| DataReceiverProperties.RunEmissions | MultimeterLogger/MeasurementDataReceiverModel.cs:194 | every measurement of a chunk is consistent, stamped with the call's clock reading, and starts at the session's start time |
| DataReceiverProperties.IdleWithoutReset | MultimeterLogger/MeasurementDataReceiverModel.cs:139-141 | a context that has taken nothing takes nothing until a 0x10 byte |
| DataReceiverProperties.FreshReceiverNeedsReset | MultimeterLogger/MeasurementDataReceiverModel.cs:132-141 | a stream without 0x10 bytes never emits from a new context |
| DataReceiverProperties.StoppedCallDropsRest | MultimeterLogger/MeasurementDataReceiverModel.cs:191-192 | once a call stops, the rest of its chunk is not processed |
| DataReceiverProperties.ChunkBoundariesIrrelevant | MultimeterLogger/MeasurementDataReceiverModel.cs:126-199 | two completed calls give what one call over the concatenated bytes gives |
| DataReceiverProperties.RunQuietStep | MultimeterLogger/MeasurementDataReceiverModel.cs:126-199 | a byte that completes without emitting only moves the state on |
| DataReceiverProperties.RunQuietPrefix | MultimeterLogger/MeasurementDataReceiverModel.cs:126-199 | a prefix that completes without emitting only moves the state on |
| DataReceiverProperties.ComposeByte | MultimeterLogger/MeasurementDataReceiverModel.cs:129-130 | a byte built from a category and a nibble splits back into them |
| DataReceiverProperties.HighNibbleStep | MultimeterLogger/MeasurementDataReceiverModel.cs:149-155 | an in-sequence 0x20/0x40/0x60/0x80 byte sets its segment to data << 4 |
| DataReceiverProperties.LowNibbleStep | MultimeterLogger/MeasurementDataReceiverModel.cs:150-156 | an in-sequence 0x30/0x50/0x70/0x90 byte ORs data into its segment |
| DataReceiverProperties.PairAssembles | MultimeterLogger/MeasurementDataReceiverModel.cs:149-156 | an in-sequence pair sets segment k to (hi << 4) OR lo and changes no other segment |
| DataReceiverProperties.NibblesReassemble | MultimeterLogger/MeasurementDataReceiverModel.cs:149-150 | a segment byte split into nibbles is reassembled exactly |
| DataReceiverProperties.LoadSegment | MultimeterLogger/MeasurementDataReceiverModel.cs:149-156 | the pair split from byte x stores x in segment k |
| DataReceiverProperties.LoadTwoSegments | MultimeterLogger/MeasurementDataReceiverModel.cs:149-156 | two consecutive pairs store two segments |
| DataReceiverProperties.SegmentBytesGrouped | MultimeterLogger/MeasurementDataReceiverModel.cs:149-156 | the eight segment bytes are the four pairs in order |
| DataReceiverProperties.SegmentsLoad | MultimeterLogger/MeasurementDataReceiverModel.cs:149-156 | after a 0x10 byte the eight segment bytes load all four segments |
| DataReceiverProperties.FlagStep | MultimeterLogger/MeasurementDataReceiverModel.cs:157-186 | an in-sequence flag byte applies its flags and moves on |
| DataReceiverProperties.FrameMultiplePriority | MultimeterLogger/MeasurementDataReceiverModel.cs:157-172 | within a frame the last set bit tested wins: mega, milli, kilo, nano, micro, else none |
| DataReceiverProperties.FrameUnitPriority | MultimeterLogger/MeasurementDataReceiverModel.cs:165-186 | likewise hertz, volt, ampere, ohm, farad, percent, else no unit |
| DataReceiverProperties.UnusedFlagBits | MultimeterLogger/MeasurementDataReceiverModel.cs:157-186 | the 0x01 bit of a flag nibble, and the 0x02 bit of 0xC0, select nothing |
| DataReceiverProperties.FlagBitZeroIgnored | MultimeterLogger/MeasurementDataReceiverModel.cs:157-186 | a flag byte acts the same with its lowest bit cleared |
| DataReceiverProperties.MultiplierFlagsLoad | MultimeterLogger/MeasurementDataReceiverModel.cs:157-172 | the 0xA0 and 0xB0 bytes set the multiplier and the percent unit |
| DataReceiverProperties.UnitFlagsLoad | MultimeterLogger/MeasurementDataReceiverModel.cs:173-186 | the 0xC0 and 0xD0 bytes set the unit |
| DataReceiverProperties.FlagsLoad | MultimeterLogger/MeasurementDataReceiverModel.cs:157-186 | the four flag bytes set multiplier and unit from what the state held |
| DataReceiverProperties.ResetStep | MultimeterLogger/MeasurementDataReceiverModel.cs:132-138 | a 0x10 byte starts a frame from any state |
| DataReceiverProperties.EndStep | MultimeterLogger/MeasurementDataReceiverModel.cs:187-195 | a 0xE0 byte after thirteen in-sequence bytes completes the frame |
| DataReceiverProperties.RunSingle | MultimeterLogger/MeasurementDataReceiverModel.cs:126-199 | a one-byte chunk is one iteration |
| DataReceiverProperties.FrameDecodes | MultimeterLogger/MeasurementDataReceiverModel.cs:126-199 | from any state a whole frame completes with its own segments, multiplier and unit; only the start time carries over |
| DecoderSamples.SampleNanoFarads | MultimeterLogger/MeasurementDataReceiverModel.cs:120 | the 10.72 nF frame emits 1.072e-8 F and anchors the start time |
| DecoderSamples.NanoFaradsValue | MultimeterLogger/MeasurementDataReceiverModel.cs:120 | its display reads 10.72 in nano |
| DecoderSamples.SampleNegativeMilliVolts | MultimeterLogger/MeasurementDataReceiverModel.cs:119 | the -000.4 mV frame emits -4e-4 V |
| DecoderSamples.NegativeMilliVoltsValue | MultimeterLogger/MeasurementDataReceiverModel.cs:119 | its display reads -0.4 in milli |
| DecoderSamples.SampleOpenDiode | MultimeterLogger/MeasurementDataReceiverModel.cs:121 | the open-diode frame emits +infinity volts |
| DecoderSamples.OpenDiodeValue | MultimeterLogger/MeasurementDataReceiverModel.cs:121 | its blank display reads +infinity |
| DecoderSamples.SampleSixMilliVolts | MultimeterLogger/MeasurementDataReceiverModel.cs:116 | the -6.6 mV frame emits -6.6e-3 V |
| DecoderSamples.SixMilliVoltsValue | MultimeterLogger/MeasurementDataReceiverModel.cs:116 | its display reads -6.6 in milli |
| DecoderSamples.SampleZeroHertz | MultimeterLogger/MeasurementDataReceiverModel.cs:117 | the 0.000 Hz frame emits 0 Hz |
| DecoderSamples.SampleZeroPercent | MultimeterLogger/MeasurementDataReceiverModel.cs:118 | the 0.000 % frame emits 0 % |
| DecoderSamples.ZeroValue | MultimeterLogger/MeasurementDataReceiverModel.cs:117-118 | the four zeros of the 0.000 displays read zero |
| DataReceiver.GetValue | MultimeterLogger/MeasurementDataReceiverModel.cs:87-102 | looks the four positions up in order and combines them; its properties are GetValueFails, GetValueFault, GetValueInfinite, GetValueFinite and SignMarkNegates |
| DataReceiver.Combine | MultimeterLogger/MeasurementDataReceiverModel.cs:89-99 | the arithmetic once the digits are known; closed form in CombineDigits, infinities in CombineInfinite, sign in CombineSign |
| DataReceiver.DigitSum | MultimeterLogger/MeasurementDataReceiverModel.cs:89-92 | the base-ten sum of the four digits (CombineDigits) |
| DataReceiver.ApplyDecimalPoints | MultimeterLogger/MeasurementDataReceiverModel.cs:94-96 | the three decimal-point divisions, equal to one division by 10^Shift (ShiftDivides) |
| DataReceiver.ApplySign | MultimeterLogger/MeasurementDataReceiverModel.cs:97 | negation by the mark on position 0 (CombineSign, SignMarkNegates) |
| DataReceiver.Scaled | MultimeterLogger/MeasurementDataReceiverModel.cs:99 | the multiplier, commuting with negation (ScaledNegates) |
| DataReceiver.SegmentNibble | MultimeterLogger/MeasurementDataReceiverModel.cs:149-156 | the segment cases of the switch (HighNibbleStep, LowNibbleStep, PairAssembles, Receiver.StoreNibble) |
| DataReceiver.FlagNibble | MultimeterLogger/MeasurementDataReceiverModel.cs:157-186 | the flag cases of the switch (FlagStep, UnusedFlagBits, Receiver.ApplyFlags) |
| DataReceiver.FlagsA | MultimeterLogger/MeasurementDataReceiverModel.cs:157-164 | the 0xA0 tests in source order (FrameMultiplePriority) |
| DataReceiver.FlagsBMultiple | MultimeterLogger/MeasurementDataReceiverModel.cs:165-172 | the 0xB0 multiplier tests in source order (FrameMultiplePriority) |
| DataReceiver.FlagsBUnit | MultimeterLogger/MeasurementDataReceiverModel.cs:168-169 | the 0xB0 percent test (FrameUnitPriority) |
| DataReceiver.FlagsC | MultimeterLogger/MeasurementDataReceiverModel.cs:173-178 | the 0xC0 tests in source order (FrameUnitPriority) |
| DataReceiver.FlagsD | MultimeterLogger/MeasurementDataReceiverModel.cs:179-186 | the 0xD0 tests in source order (FrameUnitPriority) |
| DataReceiver.Complete | MultimeterLogger/MeasurementDataReceiverModel.cs:187-195 | the completing 0xE0 case (StepOutcome, StepStartTime, StepEmission, Receiver.CompleteFrame) |
| DataReceiver.Accept | MultimeterLogger/MeasurementDataReceiverModel.cs:132-198 | a taken byte: reset, step count, switch, last category (ResetAccepted, StepPreservesInv, Receiver.AcceptByte) |
| DataReceiver.Step | MultimeterLogger/MeasurementDataReceiverModel.cs:128-198 | one loop iteration (OutOfSequenceSkipped, StepOutcome, StepEmission) |
| DataReceiver.Run | MultimeterLogger/MeasurementDataReceiverModel.cs:126-199 | the loop over a chunk (Receiver.Feed, RunAppend, RunPreservesInv, RunEmissions, FrameDecodes) |
| Measurements.ScaleUp | MultimeterLogger/Measurement.cs:42-46 | the first loop (ScaleUpBounds, ScaleUpSpec, GetFriendlyValue's invariant) |
| Measurements.ScaleDown | MultimeterLogger/Measurement.cs:47-51 | the second loop (ScaleDownExponent, ScaleDownSpec, ScaleDownBounds) |
| Measurements.Normalize | MultimeterLogger/Measurement.cs:39-51 | both loops (NormalizeInvariant, NormalizeZeroCase, NormalizeRange) |
| Measurements.FriendlyText | MultimeterLogger/Measurement.cs:53 | the result text (GetFriendlyValue, FriendlyTextSmall, FriendlyTextScaled) |

## Left out

- The serial port: opening it, `Read` into the 1024-byte buffer, and the outer `do … while (rxData != 0)` loop. Each `Feed` call is one chunk of received bytes, and the decode state persists across calls.
- The Rx plumbing (`Subject`, `Observable.FromEvent`, `OnNext`). Measurements are returned as a sequence in emission order; what subscribers do with them is not modelled.
- `DateTime.Now`: the clock is the integer parameter `now`, read once per call. The two clock reads of the completing branch therefore agree, and the elapsed span of a frame is `now - start`.
- `double` arithmetic: values are exact reals, so the rounding of `Math.Pow` and of the divisions by 10, 100 and 1000 is not modelled. NaN cannot arise from the decoder and is not represented.
- `ToString("0.####")` is the parameter `format` of `FriendlyText`, `GetFriendlyValue` and `FriendlyValue`. How it rounds the mantissa is not modelled.
- Measurements.Measurement.FriendlyValue: requires a finite value. For an infinite one the source's second loop never ends.
- The `Lazy<string>` cache of the friendly value, `X = TimeSpanAxis.ToDouble(difference)`, and the public `X`/`Y` setters required by the chart interface. `y` is the value as the constructor sets it.
- `TimeSpan` and `DateTime` values are integers (clock ticks).
- The `Port` property, `PortChanged`, `Dispose`, the message box, and the UI files (main window, view model, custom axis, command adapter, point model). These are not part of this model.
- Integer width of `Steps` and `LastCategory`: both stay between 0 and 0x100 in every reachable state (`DataReceiverProperties.Inv`), so 32-bit overflow cannot occur and unbounded integers are used.
- The `KeyNotFoundException` of an unmapped segment pattern is the outcome `DecodeFault`, and the receiver keeps its state for the next call. What the exception does after it leaves the loop (through the Rx subscription and the serial port's event handler) is not modelled.
