/** The measurement value type of the logger (Measurement.cs): the unit
    enumeration, the immutable measurement record built once per decoded
    frame, and the helpers that render a value with an SI prefix. Doubles
    are exact reals here; the decimal formatting `ToString("0.####")` is the
    parameter `format`. */
module Measurements {
  import opened Wrappers
  import opened Decimal

  /** The physical quantity a frame reports (enum MeasurementUnit). */
  datatype MeasurementUnit = Volt | Ampere | Farad | Ohm | Hertz | Percent

  /** A `double` as the decoder produces it: a finite number, or one of the
      two infinities that blank and overload displays decode to. NaN cannot
      arise from the decoder and is not modelled. */
  datatype Reading = Finite(v: real) | Infinite(negative: bool)

  /** One decoded measurement. Times are clock ticks: `startTime` is the
      session anchor, `time` the elapsed span, `absoluteTime` the moment of
      the reading. `y` is the chart coordinate the constructor copies from
      `value`. */
  datatype Measurement = Measurement(
    unit: MeasurementUnit,
    value: Reading,
    absoluteTime: int,
    time: int,
    startTime: int,
    y: Reading)
  {
    /** The cached display string: it is computed from `value` and `unit`
        only, so every measurement with the same value and unit shows the
        same text. */
    function FriendlyValue(format: real -> string): (text: string)
      requires value.Finite?
      ensures text == FriendlyText(value.v, Some(unit), format)
      ensures |text| >= |ConvertUnit(unit)|
      ensures text[|text| - |ConvertUnit(unit)|..] == ConvertUnit(unit)
    {
      FriendlyText(value.v, Some(unit), format)
    }
  }

  /** The record's fields are consistent: the absolute time is the anchor
      plus the elapsed span, and the chart ordinate equals the value. */
  ghost predicate Consistent(m: Measurement)
  {
    m.absoluteTime == m.startTime + m.time && m.y == m.value
  }

  /** The Measurement constructor. */
  function NewMeasurement(startTime: int, difference: int, value: Reading, unit: MeasurementUnit): (m: Measurement)
    ensures Consistent(m)
    ensures m.startTime == startTime && m.time == difference
    ensures m.value == value && m.unit == unit
  {
    Measurement(unit, value, startTime + difference, difference, startTime, value)
  }

  /** The printable symbol of a unit. */
  function ConvertUnit(unit: MeasurementUnit): (symbol: string)
    ensures 1 <= |symbol| <= 2
  {
    match unit
    case Ampere => "A"
    case Farad => "F"
    case Hertz => "Hz"
    case Ohm => "\U{03A9}"
    case Percent => "%"
    case Volt => "V"
  }

  /** The unit symbol appended to a friendly value: empty when no unit is given. */
  function UnitSuffix(unit: Option<MeasurementUnit>): string
  {
    if unit.Some? then ConvertUnit(unit.value) else ""
  }

  /** The exponents that have an SI prefix: the multiples of three from -12 to 9. */
  predicate PrefixedPower(power: int)
  {
    power % 3 == 0 && -12 <= power <= 9
  }

  /** The SI prefix of a power of ten; any exponent without a prefix is
      rendered as "(Invalid:<power>)". */
  function PowerToMultiple(power: int): (prefix: string)
    ensures PrefixedPower(power) <==> |prefix| <= 1
    ensures PrefixedPower(power) ==> prefix != "(" && (power == 0 <==> prefix == "")
    ensures !PrefixedPower(power) ==> |prefix| >= 11 && prefix[..9] == "(Invalid:" && prefix[|prefix| - 1] == ')'
  {
    if PrefixedPower(power) then SiPrefix(power) else InvalidPower(power)
  }

  /** The cases of PowerToMultiple's switch: giga down to pico. */
  function SiPrefix(power: int): (prefix: string)
    requires PrefixedPower(power)
    ensures |prefix| <= 1 && (power == 0 <==> prefix == "")
  {
    match power
    case 9 => "G"
    case 6 => "M"
    case 3 => "k"
    case 0 => ""
    case -3 => "m"
    case -6 => "\U{03BC}"
    case -9 => "\U{03B7}"
    case -12 => "\U{03C1}"
  }

  /** The text PowerToMultiple gives an exponent without a prefix. */
  function InvalidPower(power: int): (text: string)
    ensures |text| >= 11 && text[..9] == "(Invalid:" && text[|text| - 1] == ')'
    ensures text[9..|text| - 1] == IntToString(power)
  {
    "(Invalid:" + IntToString(power) + ")"
  }

  /** First loop of GetFriendlyValue: multiply by 1000 while the magnitude is
      below one and the exponent has not passed -12. */
  function ScaleUp(aux: real, power: int): (real, int)
    decreases power + 15
  {
    if Abs(aux) < 1.0 && power >= -12 then ScaleUp(aux * 1000.0, power - 3) else (aux, power)
  }

  /** Second loop of GetFriendlyValue: divide by 1000 while the magnitude is
      at least 1000. */
  function ScaleDown(aux: real, power: int): (real, int)
    decreases Abs(aux).Floor
  {
    if Abs(aux) >= 1000.0 then
      FloorShrinks(aux);
      ScaleDown(aux / 1000.0, power + 3)
    else
      (aux, power)
  }

  lemma FloorShrinks(aux: real)
    requires Abs(aux) >= 1000.0
    ensures 0 <= Abs(aux / 1000.0).Floor < Abs(aux).Floor
  {
    var x := Abs(aux);
    assert Abs(aux / 1000.0) == x / 1000.0;
    assert x / 1000.0 <= x - 999.0;
  }

  /** One step of the first loop keeps `aux == value * 10^-power`. */
  lemma MantissaTimes1000(value: real, aux: real, power: int)
    requires aux == value * Pow10(-power)
    ensures aux * 1000.0 == value * Pow10(-(power - 3))
  {
    Pow10Plus3(-power);
    var q := Pow10(-power);
    assert value * (1000.0 * q) == (value * q) * 1000.0;
  }

  /** One step of the second loop keeps `aux == value * 10^-power`. */
  lemma MantissaOver1000(value: real, aux: real, power: int)
    requires aux == value * Pow10(-power)
    ensures aux / 1000.0 == value * Pow10(-(power + 3))
  {
    Pow10Plus3(-power - 3);
    var q := Pow10(-power - 3);
    assert value * (1000.0 * q) == (value * q) * 1000.0;
  }

  /** The mantissa and exponent both loops leave behind. */
  function Normalize(value: real): (real, int)
  {
    var up := ScaleUp(value, 0);
    ScaleDown(up.0, up.1)
  }

  /** The text of GetFriendlyValue: "0" when the value is too small for the
      smallest prefix, otherwise the formatted mantissa, a space and the
      prefix; the unit symbol, if any, follows in both cases. */
  function FriendlyText(value: real, unit: Option<MeasurementUnit>, format: real -> string): string
  {
    var (aux, power) := Normalize(value);
    (if power < -12 then "0" else format(aux) + " " + PowerToMultiple(power)) + UnitSuffix(unit)
  }

  /** GetFriendlyValue, with its two loops over the local mantissa and
      exponent. */
  method GetFriendlyValue(value: real, unit: Option<MeasurementUnit>, format: real -> string) returns (text: string)
    ensures text == FriendlyText(value, unit, format)
  {
    var auxValue := value;
    var power := 0;
    while Abs(auxValue) < 1.0 && power >= -12
      invariant -15 <= power <= 0
      invariant ScaleUp(auxValue, power) == ScaleUp(value, 0)
      decreases power + 15
    {
      auxValue := auxValue * 1000.0;
      power := power - 3;
    }
    while Abs(auxValue) >= 1000.0
      invariant ScaleDown(auxValue, power) == Normalize(value)
      decreases Abs(auxValue).Floor
    {
      FloorShrinks(auxValue);
      auxValue := auxValue / 1000.0;
      power := power + 3;
    }
    text := (if power < -12 then "0" else format(auxValue) + " " + PowerToMultiple(power)) + UnitSuffix(unit);
  }

  /** What the first loop establishes about its result `(a, p)`. Entering
      with an exponent that is a multiple of three between -15 and 0 (and,
      below 0, a mantissa under 1000 because the previous test saw a
      magnitude below one), it stops either past -12, or at an exponent of
      at least -12 with a mantissa of magnitude at least one; the mantissa
      stays under 1000 throughout. */
  lemma {:induction false} ScaleUpBounds(aux: real, power: int, a: real, p: int)
    requires power % 3 == 0 && -15 <= power <= 0
    requires power < 0 ==> Abs(aux) < 1000.0
    requires (a, p) == ScaleUp(aux, power)
    ensures p % 3 == 0 && -15 <= p <= power
    ensures p < 0 ==> Abs(a) < 1000.0
    ensures p < -12 || Abs(a) >= 1.0
    decreases power + 15
  {
    if Abs(aux) < 1.0 && power >= -12 {
      assert Abs(aux * 1000.0) == Abs(aux) * 1000.0;
      ScaleUpBounds(aux * 1000.0, power - 3, a, p);
    }
  }

  /** The first loop keeps the mantissa equal to value * 10^-p for its
      result `(a, p)`. */
  lemma {:induction false} ScaleUpSpec(value: real, aux: real, power: int, a: real, p: int)
    requires aux == value * Pow10(-power)
    requires (a, p) == ScaleUp(aux, power)
    ensures a == value * Pow10(-p)
    decreases power + 15, 1
  {
    if Abs(aux) < 1.0 && power >= -12 {
      MantissaTimes1000(value, aux, power);
      ScaleUpNext(value, aux * 1000.0, power, a, p);
    }
  }

  /** The rest of the first loop after one turn, which left `next`. */
  lemma {:induction false} ScaleUpNext(value: real, next: real, power: int, a: real, p: int)
    requires next == value * Pow10(-(power - 3)) && power >= -12
    requires (a, p) == ScaleUp(next, power - 3)
    ensures a == value * Pow10(-p)
    decreases power + 15, 0
  {
    ScaleUpSpec(value, next, power - 3, a, p);
  }

  /** The second loop moves the exponent up by multiples of three. */
  lemma {:induction false} ScaleDownExponent(aux: real, power: int, a: real, p: int)
    requires (a, p) == ScaleDown(aux, power)
    ensures p >= power && (p - power) % 3 == 0
    decreases Abs(aux).Floor
  {
    if Abs(aux) >= 1000.0 {
      FloorShrinks(aux);
      ScaleDownExponent(aux / 1000.0, power + 3, a, p);
    }
  }

  /** The second loop keeps the mantissa equal to value * 10^-p for its
      result `(a, p)`. */
  lemma {:induction false} ScaleDownSpec(value: real, aux: real, power: int, a: real, p: int)
    requires aux == value * Pow10(-power)
    requires (a, p) == ScaleDown(aux, power)
    ensures a == value * Pow10(-p)
    decreases Abs(aux).Floor, 1
  {
    if Abs(aux) >= 1000.0 {
      FloorShrinks(aux);
      MantissaOver1000(value, aux, power);
      ScaleDownNext(value, aux, aux / 1000.0, power, a, p);
    }
  }

  /** The rest of the second loop after one turn, which left `next`. */
  lemma {:induction false} ScaleDownNext(value: real, aux: real, next: real, power: int, a: real, p: int)
    requires next == value * Pow10(-(power + 3)) && 0 <= Abs(next).Floor < Abs(aux).Floor
    requires (a, p) == ScaleDown(next, power + 3)
    ensures a == value * Pow10(-p)
    decreases Abs(aux).Floor, 0
  {
    ScaleDownSpec(value, next, power + 3, a, p);
  }

  /** The second loop leaves a mantissa below 1000; one that was at least
      one stays so, and one already below 1000 is left alone. */
  lemma {:induction false} ScaleDownBounds(aux: real, power: int, a: real, p: int)
    requires (a, p) == ScaleDown(aux, power)
    ensures Abs(a) < 1000.0
    ensures Abs(aux) >= 1.0 ==> Abs(a) >= 1.0
    ensures Abs(aux) < 1000.0 ==> a == aux && p == power
    decreases Abs(aux).Floor
  {
    if Abs(aux) >= 1000.0 {
      FloorShrinks(aux);
      ScaleDownBounds(aux / 1000.0, power + 3, a, p);
    }
  }

  /** The loops of GetFriendlyValue leave a result `(a, p)` with p a
      multiple of three no lower than -15 and a == value * 10^-p; below
      -12 the mantissa is under 1000, at -12 or above it is between 1 and
      1000. */
  lemma NormalizeInvariant(value: real, a: real, p: int)
    requires (a, p) == Normalize(value)
    ensures p % 3 == 0 && p >= -15
    ensures a == value * Pow10(-p)
    ensures Abs(a) < 1000.0
    ensures p >= -12 ==> Abs(a) >= 1.0
  {
    var (u, q) := ScaleUp(value, 0);
    ScaleUpBounds(value, 0, u, q);
    ScaleUpSpec(value, value, 0, u, q);
    ScaleDownExponent(u, q, a, p);
    ScaleDownSpec(value, u, q, a, p);
    ScaleDownBounds(u, q, a, p);
  }

  /** A mantissa a == value * 10^-p brackets the value between powers of ten. */
  lemma MantissaBrackets(value: real, a: real, p: int)
    requires a == value * Pow10(-p)
    ensures Abs(a) < 1000.0 <==> Abs(value) < Pow10(p + 3)
    ensures Abs(a) >= 1.0 <==> Abs(value) >= Pow10(p)
  {
    AbsScale(value, Pow10(-p));
    var v := Abs(value);
    assert Abs(a) == v * Pow10(-p);
    ScaleCompare(v, p, 1000.0);
    Pow10Plus3(p);
    ScaleCompare(v, p, 1.0);
  }

  /** The "0" case of GetFriendlyValue (exponent left below -12) happens
      exactly for values of magnitude below 10^-12. */
  lemma NormalizeZeroCase(value: real)
    ensures Normalize(value).1 < -12 <==> Abs(value) < Pow10(-12)
  {
    var (a, p) := Normalize(value);
    NormalizeInvariant(value, a, p);
    MantissaBrackets(value, a, p);
    if p >= -12 {
      Pow10Monotone(-12, p);
    }
  }

  /** Otherwise the exponent p is the multiple of three with
      10^p <= |value| < 10^(p+3). */
  lemma NormalizeRange(value: real, a: real, p: int)
    requires (a, p) == Normalize(value)
    requires p >= -12
    ensures Pow10(p) <= Abs(value) < Pow10(p + 3)
  {
    NormalizeInvariant(value, a, p);
    MantissaBrackets(value, a, p);
  }

  /** Values of magnitude 10^12 or more leave the exponent at 12 or above,
      where PowerToMultiple has no prefix. */
  lemma LargeValueHasNoPrefix(value: real)
    requires Abs(value) >= Pow10(12)
    ensures Normalize(value).1 >= 12
    ensures !PrefixedPower(Normalize(value).1)
  {
    var (a, p) := Normalize(value);
    NormalizeInvariant(value, a, p);
    Pow10Monotone(-12, 12);
    NormalizeZeroCase(value);
    NormalizeRange(value, a, p);
    if p <= 9 {
      Pow10Monotone(p + 3, 12);
    }
  }

  /** Values between 10^-12 and 10^12 get one of the eight SI prefixes. */
  lemma InRangeValueHasPrefix(value: real)
    requires Pow10(-12) <= Abs(value) < Pow10(12)
    ensures PrefixedPower(Normalize(value).1)
  {
    var (a, p) := Normalize(value);
    NormalizeInvariant(value, a, p);
    NormalizeZeroCase(value);
    NormalizeRange(value, a, p);
    if p >= 12 {
      Pow10Monotone(12, p);
    }
  }

  /** Values of magnitude below 10^-12 render as "0" followed directly by
      the unit symbol, with no space and no prefix. */
  lemma FriendlyTextSmall(value: real, unit: Option<MeasurementUnit>, format: real -> string)
    requires Abs(value) < Pow10(-12)
    ensures FriendlyText(value, unit, format) == "0" + UnitSuffix(unit)
  {
    NormalizeZeroCase(value);
  }

  /** Any other value renders as its formatted mantissa, a space, the
      prefix and the unit symbol, where the mantissa a and exponent p
      satisfy value == a * 10^p, 1 <= |a| < 1000 and p a multiple of three
      no lower than -12, as Normalize returns them. */
  lemma FriendlyTextScaled(value: real, unit: Option<MeasurementUnit>, format: real -> string, a: real, p: int)
    requires Abs(value) >= Pow10(-12)
    requires (a, p) == Normalize(value)
    ensures FriendlyText(value, unit, format) == format(a) + " " + PowerToMultiple(p) + UnitSuffix(unit)
    ensures a == value * Pow10(-p) && 1.0 <= Abs(a) < 1000.0
    ensures p % 3 == 0 && p >= -12
  {
    NormalizeZeroCase(value);
    NormalizeInvariant(value, a, p);
  }

  /** The six unit symbols are pairwise distinct. */
  lemma ConvertUnitInjective(u: MeasurementUnit, w: MeasurementUnit)
    requires ConvertUnit(u) == ConvertUnit(w)
    ensures u == w
  {
  }

  /** Different exponents never render the same: the prefixes are distinct
      single characters (or empty for 0), and every other exponent renders
      its own digits. */
  lemma PowerToMultipleInjective(p: int, q: int)
    requires PowerToMultiple(p) == PowerToMultiple(q)
    ensures p == q
  {
    if PrefixedPower(p) {
      PrefixesDistinct(p, q);
    } else {
      IntToStringInjective(p, q);
    }
  }

  /** The eight prefixes differ from each other. */
  lemma PrefixesDistinct(p: int, q: int)
    requires PrefixedPower(p) && PrefixedPower(q) && SiPrefix(p) == SiPrefix(q)
    ensures p == q
  {
    assert p in {-12, -9, -6, -3, 0, 3, 6, 9};
  }

  /** 1500 V renders with the kilo prefix. */
  lemma FriendlyKiloVolts(format: real -> string)
    ensures FriendlyText(1500.0, Some(Volt), format) == format(1.5) + " kV"
  {
  }

  /** 10.72e-9 F renders with the nano prefix. */
  lemma FriendlyNanoFarads(format: real -> string)
    ensures FriendlyText(0.00000001072, Some(Farad), format) == format(10.72) + " \U{03B7}F"
  {
  }

  /** Zero renders as "0" and the unit symbol. */
  lemma FriendlyZeroPercent(format: real -> string)
    ensures FriendlyText(0.0, Some(Percent), format) == "0%"
  {
  }
}
