/** Properties of ReceiveContext.GetValue and its segment table. */
module ValueProperties {
  import opened Wrappers
  import opened Decimal
  import opened Measurements
  import opened DataReceiver

  /** The seven-segment pattern of each decimal digit. */
  function DigitPattern(n: nat): int
    requires n < 10
  {
    [0x7D, 0x05, 0x5B, 0x1F, 0x27, 0x3E, 0x7E, 0x15, 0x7F, 0x3F][n]
  }

  /** Each digit's pattern decodes to that digit. */
  lemma DigitPatternDecodes(n: nat)
    requires n < 10
    ensures DigitPattern(n) in SegmentToDigit && SegmentToDigit[DigitPattern(n)] == Num(n)
  {
    assert n == 0 || n == 1 || n == 2 || n == 3 || n == 4 || n == 5 || n == 6 || n == 7 || n == 8 || n == 9;
  }

  /** The table holds exactly the ten digit patterns and the two blank
      patterns 0x00 and 0x68. */
  lemma TableShape(p: int)
    requires p in SegmentToDigit
    ensures SegmentToDigit[p].Blank? <==> (p == 0x00 || p == 0x68)
    ensures SegmentToDigit[p].Num? ==> SegmentToDigit[p].n < 10 && DigitPattern(SegmentToDigit[p].n) == p
  {
    assert SegmentToDigit.Keys == {0x00, 0x7D, 0x05, 0x5B, 0x1F, 0x27, 0x3E, 0x7E, 0x15, 0x7F, 0x3F, 0x68};
    assert p in SegmentToDigit.Keys;
  }

  /** The table's keys: the ten digit patterns and the two blank patterns. */
  lemma TableKeys()
    ensures SegmentToDigit.Keys == {0x00, 0x7D, 0x05, 0x5B, 0x1F, 0x27, 0x3E, 0x7E, 0x15, 0x7F, 0x3F, 0x68}
  {
  }

  /** Every position's pattern is in the table. */
  predicate AllMapped(seg: Segments)
  {
    forall k :: 0 <= k < 4 ==> Pattern(seg[k]) in SegmentToDigit
  }

  /** Some position shows a blank or overload pattern. */
  predicate AnyBlank(seg: Segments)
    requires AllMapped(seg)
  {
    exists k :: 0 <= k < 4 && SegmentToDigit[Pattern(seg[k])].Blank?
  }

  /** The digit shown at position `k`. */
  function DigitAt(seg: Segments, k: nat): Digit
    requires AllMapped(seg) && k < 4
  {
    SegmentToDigit[Pattern(seg[k])]
  }

  /** The four digits read as a base-ten number. */
  function Raw(seg: Segments): nat
    requires AllMapped(seg)
  {
    DigitSum(DigitAt(seg, 0), DigitAt(seg, 1), DigitAt(seg, 2), DigitAt(seg, 3))
  }

  /** The number of decimal places the marks on positions 3, 2 and 1 give. */
  function Shift(seg: Segments): nat
  {
    (if Marked(seg[3]) then 1 else 0) + (if Marked(seg[2]) then 2 else 0) + (if Marked(seg[1]) then 3 else 0)
  }

  /** GetValue fails exactly when some pattern is not in the table. */
  lemma GetValueFails(seg: Segments, m: Multiple)
    ensures GetValue(seg, m).Failure? <==> !AllMapped(seg)
  {
    if !AllMapped(seg) {
      var k :| 0 <= k < 4 && Pattern(seg[k]) !in SegmentToDigit;
      assert Lookup(seg[k]).Failure?;
    }
  }

  /** A failing GetValue reports the first position whose pattern is not
      in the table. */
  lemma GetValueFault(seg: Segments, m: Multiple)
    requires GetValue(seg, m).Failure?
    ensures exists k :: 0 <= k < 4 && Pattern(seg[k]) !in SegmentToDigit && GetValue(seg, m).error == Pattern(seg[k])
                        && forall j :: 0 <= j < k ==> Pattern(seg[j]) in SegmentToDigit
  {
    if Lookup(seg[0]).Failure? {
      assert GetValue(seg, m).error == Pattern(seg[0]);
    } else if Lookup(seg[1]).Failure? {
      assert GetValue(seg, m).error == Pattern(seg[1]);
    } else if Lookup(seg[2]).Failure? {
      assert GetValue(seg, m).error == Pattern(seg[2]);
    } else {
      assert GetValue(seg, m).error == Pattern(seg[3]);
    }
  }

  /** With every pattern known, GetValue combines the four digits. */
  lemma GetValueMapped(seg: Segments, m: Multiple)
    requires AllMapped(seg)
    ensures GetValue(seg, m) == Success(Combine(DigitAt(seg, 0), DigitAt(seg, 1), DigitAt(seg, 2), DigitAt(seg, 3), seg, m))
  {
    assert Lookup(seg[0]) == Success(DigitAt(seg, 0)) && Lookup(seg[1]) == Success(DigitAt(seg, 1));
    assert Lookup(seg[2]) == Success(DigitAt(seg, 2)) && Lookup(seg[3]) == Success(DigitAt(seg, 3));
  }

  /** With every pattern known, the value is infinite exactly when some
      position is blank, and its sign is the mark on position 0. */
  lemma GetValueInfinite(seg: Segments, m: Multiple)
    requires AllMapped(seg)
    ensures GetValue(seg, m).Success?
    ensures GetValue(seg, m).value.Infinite? <==> AnyBlank(seg)
    ensures GetValue(seg, m).value.Infinite? ==> GetValue(seg, m).value.negative == Marked(seg[0])
  {
    GetValueMapped(seg, m);
    CombineInfinite(DigitAt(seg, 0), DigitAt(seg, 1), DigitAt(seg, 2), DigitAt(seg, 3), seg, m);
    AnyBlankDigits(seg);
  }

  /** Some position is blank exactly when one of the four digits is. */
  lemma AnyBlankDigits(seg: Segments)
    requires AllMapped(seg)
    ensures AnyBlank(seg) <==> DigitAt(seg, 0).Blank? || DigitAt(seg, 1).Blank? || DigitAt(seg, 2).Blank? || DigitAt(seg, 3).Blank?
  {
    if AnyBlank(seg) {
      var k :| 0 <= k < 4 && SegmentToDigit[Pattern(seg[k])].Blank?;
      assert DigitAt(seg, k).Blank?;
    }
  }

  /** Combine gives infinity exactly when a digit is blank, with the sign
      of the mark on position 0. */
  lemma CombineInfinite(d0: Digit, d1: Digit, d2: Digit, d3: Digit, seg: Segments, m: Multiple)
    ensures Combine(d0, d1, d2, d3, seg, m).Infinite? <==> d0.Blank? || d1.Blank? || d2.Blank? || d3.Blank?
    ensures Combine(d0, d1, d2, d3, seg, m).Infinite? ==> Combine(d0, d1, d2, d3, seg, m).negative == Marked(seg[0])
  {
  }

  /** The divisions by 10, 100 and 1000 add up to a division by 10^Shift. */
  lemma ShiftDivides(seg: Segments, x: real)
    ensures ApplyDecimalPoints(seg, x) == x / Pow10(Shift(seg))
  {
    var k := Shift(seg);
    assert Pow10(k) == Pow10Nat(k);
    assert k <= 6;
    assert Pow10Nat(1) == 10.0 && Pow10Nat(2) == 100.0 && Pow10Nat(3) == 1000.0;
    assert Pow10Nat(4) == 10000.0 && Pow10Nat(5) == 100000.0 && Pow10Nat(6) == 1000000.0;
  }

  /** Four digits combine to the signed base-ten number divided by
      10^Shift and scaled by the multiplier. */
  lemma CombineDigits(d0: Digit, d1: Digit, d2: Digit, d3: Digit, seg: Segments, m: Multiple)
    requires d0.Num? && d1.Num? && d2.Num? && d3.Num?
    ensures Combine(d0, d1, d2, d3, seg, m) ==
      Finite(Scaled(ApplySign(seg, DigitSum(d0, d1, d2, d3) as real / Pow10(Shift(seg))), m))
  {
    ShiftDivides(seg, DigitSum(d0, d1, d2, d3) as real);
  }

  /** With every position a digit, GetValue is the signed base-ten number
      divided by 10^Shift and scaled by the multiplier. */
  lemma GetValueFinite(seg: Segments, m: Multiple)
    requires AllMapped(seg) && !AnyBlank(seg)
    ensures GetValue(seg, m) == Success(Finite(Scaled(ApplySign(seg, Raw(seg) as real / Pow10(Shift(seg))), m)))
  {
    GetValueMapped(seg, m);
    assert DigitAt(seg, 0).Num? && DigitAt(seg, 1).Num? && DigitAt(seg, 2).Num? && DigitAt(seg, 3).Num?;
    CombineDigits(DigitAt(seg, 0), DigitAt(seg, 1), DigitAt(seg, 2), DigitAt(seg, 3), seg, m);
  }

  /** Decimal points on positions 1 and 3 (and not 2) divide by 10^4: the
      two marks add up. */
  lemma MarksOnOneAndThree(seg: Segments, m: Multiple)
    requires AllMapped(seg) && !AnyBlank(seg)
    requires Marked(seg[1]) && !Marked(seg[2]) && Marked(seg[3]) && !Marked(seg[0])
    ensures GetValue(seg, Unscaled) == Success(Finite(Raw(seg) as real / 10000.0))
  {
    GetValueFinite(seg, Unscaled);
    assert Shift(seg) == 4;
    assert Pow10(4) == 10000.0;
    assert Pow10(0) == 1.0;
  }

  /** Negating before the multiplier is negating after it. */
  lemma ScaledNegates(x: real, m: Multiple)
    ensures Scaled(-x, m) == -Scaled(x, m)
  {
  }

  /** The same digits under segments that differ only in the sign mark
      combine to opposite readings. */
  lemma CombineSign(d0: Digit, d1: Digit, d2: Digit, d3: Digit, plus: Segments, minus: Segments, m: Multiple)
    requires !Marked(plus[0]) && Marked(minus[0]) && plus[1..] == minus[1..]
    ensures var p := Combine(d0, d1, d2, d3, plus, m);
      var q := Combine(d0, d1, d2, d3, minus, m);
      && (p.Finite? <==> q.Finite?)
      && (p.Finite? ==> q.v == -p.v)
      && (p.Infinite? ==> !p.negative && q.negative)
  {
    if d0.Num? && d1.Num? && d2.Num? && d3.Num? {
      var x := DigitSum(d0, d1, d2, d3) as real;
      assert plus[1] == minus[1] && plus[2] == minus[2] && plus[3] == minus[3];
      assert ApplyDecimalPoints(plus, x) == ApplyDecimalPoints(minus, x);
      ScaledNegates(ApplyDecimalPoints(plus, x), m);
    }
  }

  /** Segments whose four lookups agree fail alike, and otherwise combine
      the same digits. */
  lemma SameLookups(a: Segments, b: Segments, m: Multiple)
    requires Lookup(a[0]) == Lookup(b[0]) && Lookup(a[1]) == Lookup(b[1])
    requires Lookup(a[2]) == Lookup(b[2]) && Lookup(a[3]) == Lookup(b[3])
    ensures GetValue(a, m).Failure? <==> GetValue(b, m).Failure?
    ensures GetValue(a, m).Failure? ==> GetValue(a, m).error == GetValue(b, m).error
    ensures GetValue(a, m).Success? ==>
      var d0, d1, d2, d3 := Lookup(a[0]).value, Lookup(a[1]).value, Lookup(a[2]).value, Lookup(a[3]).value;
      GetValue(a, m) == Success(Combine(d0, d1, d2, d3, a, m)) && GetValue(b, m) == Success(Combine(d0, d1, d2, d3, b, m))
  {
  }

  /** The mark on position 0 negates the value, whatever the multiplier,
      and leaves faults alone: two frames that differ only in that mark
      fail alike, or read opposite values. */
  lemma SignMarkNegates(plus: Segments, minus: Segments, m: Multiple)
    requires Pattern(plus[0]) == Pattern(minus[0]) && !Marked(plus[0]) && Marked(minus[0])
    requires plus[1..] == minus[1..]
    ensures GetValue(plus, m).Failure? <==> GetValue(minus, m).Failure?
    ensures GetValue(plus, m).Failure? ==> GetValue(plus, m).error == GetValue(minus, m).error
    ensures GetValue(plus, m).Success? ==>
      var p, q := GetValue(plus, m).value, GetValue(minus, m).value;
      && (p.Finite? <==> q.Finite?)
      && (p.Finite? ==> q.v == -p.v)
      && (p.Infinite? ==> !p.negative && q.negative)
  {
    assert plus[1] == minus[1] && plus[2] == minus[2] && plus[3] == minus[3];
    SameLookups(plus, minus, m);
    if GetValue(plus, m).Success? {
      var d0, d1, d2, d3 := Lookup(plus[0]).value, Lookup(plus[1]).value, Lookup(plus[2]).value, Lookup(plus[3]).value;
      CombineSign(d0, d1, d2, d3, plus, minus, m);
    }
  }
}
