/** Exact decimal arithmetic standing in for the source's `double` arithmetic
    (`Math.Pow(10, e)`, division by powers of ten) and for the decimal
    rendering of an `int` that C# performs in string concatenation. */
module Decimal {

  /** Magnitude of a real (Math.Abs). */
  function Abs(x: real): (r: real)
    ensures r >= 0.0 && (r == x || r == -x)
  {
    if x < 0.0 then -x else x
  }

  /** 10 to the power `n`, for a natural exponent. */
  function Pow10Nat(n: nat): (r: real)
    ensures r >= 1.0
  {
    if n == 0 then 1.0 else 10.0 * Pow10Nat(n - 1)
  }

  /** 10 to the power `e` for any integer exponent, as an exact real. */
  function Pow10(e: int): (r: real)
    ensures r > 0.0
  {
    if e >= 0 then Pow10Nat(e) else 1.0 / Pow10Nat(-e)
  }

  lemma Pow10Succ(e: int)
    ensures Pow10(e + 1) == 10.0 * Pow10(e)
  {
    if e < -1 {
      var x := Pow10Nat(-e - 1);
      assert Pow10Nat(-e) == 10.0 * x;
      assert 1.0 / x == 10.0 * (1.0 / (10.0 * x));
    }
  }

  lemma Pow10Plus3(e: int)
    ensures Pow10(e + 3) == 1000.0 * Pow10(e)
  {
    Pow10Succ(e);
    Pow10Succ(e + 1);
    Pow10Succ(e + 2);
  }

  /** 10^-e is the reciprocal of 10^e. */
  lemma Pow10Reciprocal(e: int)
    ensures Pow10(-e) * Pow10(e) == 1.0
  {
  }

  lemma {:induction false} Pow10Monotone(a: int, b: int)
    requires a <= b
    ensures Pow10(a) <= Pow10(b)
    decreases b - a
  {
    if a < b {
      Pow10Monotone(a, b - 1);
      Pow10Succ(b - 1);
    }
  }

  lemma Pow10StrictlyMonotone(a: int, b: int)
    requires a < b
    ensures Pow10(a) < Pow10(b)
  {
    Pow10Monotone(a, b - 1);
    Pow10Succ(b - 1);
  }

  /** Rescaling by 10^-p compares against c exactly as the unscaled value
      compares against c * 10^p. */
  lemma ScaleCompare(x: real, p: int, c: real)
    ensures (x * Pow10(-p) < c) <==> (x < c * Pow10(p))
  {
    var q, r := Pow10(p), Pow10(-p);
    Pow10Reciprocal(p);
    MulAssoc(x, r, q);
    MulAssoc(c, q, r);
    if x * r < c {
      assert (x * r) * q < c * q;
    }
    if x < c * q {
      assert x * r < (c * q) * r;
    }
  }

  lemma MulAssoc(x: real, a: real, b: real)
    requires a * b == 1.0 || b * a == 1.0
    ensures (x * a) * b == x
  {
    assert (x * a) * b == x * (a * b);
  }

  lemma AbsScale(x: real, c: real)
    requires c > 0.0
    ensures Abs(x * c) == Abs(x) * c
  {
    if x < 0.0 {
      assert x * c < 0.0;
    }
  }

  function DigitChar(d: nat): (c: char)
    requires d < 10
    ensures '0' <= c <= '9'
  {
    "0123456789"[d]
  }

  /** Decimal digits of a natural number, most significant first, without
      leading zeros. */
  function NatToString(n: nat): (s: string)
    ensures |s| >= 1
    ensures forall i :: 0 <= i < |s| ==> '0' <= s[i] <= '9'
  {
    if n < 10 then [DigitChar(n)] else NatToString(n / 10) + [DigitChar(n % 10)]
  }

  /** The text C# produces for an `int` in string concatenation: its decimal
      digits, preceded by '-' when it is negative. */
  function IntToString(n: int): (s: string)
    ensures |s| >= 1
    ensures (s[0] == '-') == (n < 0)
  {
    if n < 0 then "-" + NatToString(-n) else NatToString(n)
  }

  /** Reads back a string of decimal digits; the inverse of NatToString. */
  function ParseNat(s: string): nat
    requires forall i :: 0 <= i < |s| ==> '0' <= s[i] <= '9'
  {
    if s == [] then 0
    else 10 * ParseNat(s[..|s| - 1]) + ((s[|s| - 1] as int) - ('0' as int))
  }

  lemma {:induction false} ParseNatToString(n: nat)
    ensures ParseNat(NatToString(n)) == n
  {
    if n >= 10 {
      var s := NatToString(n);
      assert s[..|s| - 1] == NatToString(n / 10);
      ParseNatToString(n / 10);
    }
  }

  lemma NatToStringInjective(m: nat, n: nat)
    requires NatToString(m) == NatToString(n)
    ensures m == n
  {
    ParseNatToString(m);
    ParseNatToString(n);
  }

  /** Distinct integers are rendered as distinct strings. */
  lemma IntToStringInjective(a: int, b: int)
    requires IntToString(a) == IntToString(b)
    ensures a == b
  {
    var s := IntToString(a);
    if a < 0 {
      assert b < 0;
      assert NatToString(-a) == s[1..] == NatToString(-b);
      NatToStringInjective(-a, -b);
    } else {
      assert b >= 0;
      NatToStringInjective(a, b);
    }
  }
}
