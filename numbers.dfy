/** Python's `int(s)` and `float(s)` on the strings a configuration value can be,
    reduced to their ASCII decimal grammars: `int` accepts an optional sign and
    one or more digits; `float` accepts an optional sign, digits with an optional
    fraction part (at least one digit in all) and an optional exponent. A failed
    parse is Python's `ValueError` and comes back as `None`. */
module Numbers {
  import opened Wrappers

  predicate IsDigit(c: char) {
    '0' <= c <= '9'
  }

  predicate AllDigits(s: string) {
    forall i :: 0 <= i < |s| ==> IsDigit(s[i])
  }

  function DigitValue(c: char): (d: nat)
    requires IsDigit(c)
    ensures d < 10
  {
    c as int - '0' as int
  }

  /** The number a string of decimal digits denotes (0 for no digits). */
  function DigitsValue(s: string): nat
    requires AllDigits(s)
  {
    if s == [] then 0 else DigitsValue(s[..|s| - 1]) * 10 + DigitValue(s[|s| - 1])
  }

  /** An optional leading `+` or `-`, and what follows it. */
  function SplitSign(s: string): (r: (bool, string))
    ensures r.1 == if |s| > 0 && (s[0] == '+' || s[0] == '-') then s[1..] else s
    ensures r.0 <==> |s| > 0 && s[0] == '-'
  {
    if |s| > 0 && (s[0] == '+' || s[0] == '-') then (s[0] == '-', s[1..]) else (false, s)
  }

  /** `int(s)`: `None` where Python raises `ValueError`. */
  function ParseInt(s: string): Option<int> {
    var (negative, digits) := SplitSign(s);
    if |digits| > 0 && AllDigits(digits) then
      var value: int := DigitsValue(digits);
      Some(if negative then -value else value)
    else None
  }

  function Pow(b: nat, k: nat): (r: nat)
    ensures b > 0 ==> r > 0
  {
    if k == 0 then 1 else b * Pow(b, k - 1)
  }

  /** The exact value of a decimal literal: (-1)^negative * mantissa * 10^exponent. */
  datatype Decimal = Decimal(negative: bool, mantissa: nat, exponent: int) {
    /** Whether `float(s)` is a zero, which is what Python's truth test looks at.
        The literal is rounded to the nearest IEEE 754 double, ties to even; the
        smallest positive double is 2^-1074, so a value at or below half of it,
        2^-1075, becomes 0.0 (a tie goes to the even neighbour, zero). Any larger
        value gives a nonzero double, or infinity past the largest finite one. */
    predicate IsZero() {
      mantissa == 0 || (exponent < 0 && mantissa * Pow(2, 1075) <= Pow(10, -exponent))
    }
  }

  lemma {:induction false} PowMonotone(b: nat, i: nat, j: nat)
    requires b > 0 && i <= j
    ensures Pow(b, i) <= Pow(b, j)
    decreases j
  {
    if i < j {
      PowMonotone(b, i, j - 1);
    }
  }

  lemma MulMonotone(a: nat, b: nat, p: nat, q: nat)
    requires a <= b && p <= q
    ensures a * p <= b * q
  {
    assert (b - a) * p >= 0;
    assert b * (q - p) >= 0;
  }

  lemma {:induction false} PowBase(a: nat, b: nat, k: nat)
    requires a <= b
    ensures Pow(a, k) <= Pow(b, k)
  {
    if k > 0 {
      PowBase(a, b, k - 1);
      MulMonotone(a, b, Pow(a, k - 1), Pow(b, k - 1));
    }
  }

  /** 2^(3k) == 8^k. */
  lemma {:induction false} PowCube(k: nat)
    ensures Pow(2, 3 * k) == Pow(8, k)
  {
    if k > 0 {
      PowCube(k - 1);
      var n := 3 * (k - 1);
      assert Pow(2, n + 3) == 2 * Pow(2, n + 2);
      assert Pow(2, n + 2) == 2 * Pow(2, n + 1);
      assert Pow(2, n + 1) == 2 * Pow(2, n);
    }
  }

  /** 10^k <= 2^(4k). */
  lemma {:induction false} PowTen(k: nat)
    ensures Pow(10, k) <= Pow(2, 4 * k)
  {
    if k > 0 {
      PowTen(k - 1);
      var n := 4 * (k - 1);
      assert Pow(2, n + 4) == 2 * Pow(2, n + 3);
      assert Pow(2, n + 3) == 2 * Pow(2, n + 2);
      assert Pow(2, n + 2) == 2 * Pow(2, n + 1);
      assert Pow(2, n + 1) == 2 * Pow(2, n);
    }
  }

  /** Down to ten to the minus 268, a literal rounds to zero exactly when its
      digits are all zeros. */
  lemma ZeroOnlyWhenDigitsAre(d: Decimal)
    requires d.exponent >= -268
    ensures d.IsZero() <==> d.mantissa == 0
  {
    if d.mantissa > 0 && d.exponent < 0 {
      PowTen(-d.exponent);
      PowMonotone(2, 4 * -d.exponent, 1074);
      var p := Pow(2, 1075);
      assert p == 2 * Pow(2, 1074);
      MulMonotone(1, d.mantissa, p, p);
    }
  }

  /** Far enough below, a nonzero literal underflows: a one in the 400th
      decimal place (at most 2^-1200) rounds to 0.0. */
  lemma Underflow(d: Decimal)
    requires d.mantissa == 1 && d.exponent == -400
    ensures d.IsZero()
  {
    PowMonotone(2, 1075, 1200);
    PowCube(400);
    PowBase(8, 10, 400);
  }

  /** The first position of `c` in `s`, or `|s|` when there is none. */
  function IndexOf(s: string, c: char): (k: nat)
    ensures k <= |s|
    ensures k < |s| ==> s[k] == c
    ensures forall j :: 0 <= j < k ==> s[j] != c
  {
    if s == [] then 0 else if s[0] == c then 0 else 1 + IndexOf(s[1..], c)
  }

  /** The first position of an exponent marker `e` or `E`, or `|s|`. */
  function IndexOfExponent(s: string): (k: nat)
    ensures k <= |s|
    ensures k < |s| ==> s[k] == 'e' || s[k] == 'E'
    ensures forall j :: 0 <= j < k ==> s[j] != 'e' && s[j] != 'E'
  {
    if s == [] then 0 else if s[0] == 'e' || s[0] == 'E' then 0 else 1 + IndexOfExponent(s[1..])
  }

  /** The digits before the exponent: their value and how many follow the point. */
  function ParseMantissa(m: string): Option<(nat, nat)> {
    var d := IndexOf(m, '.');
    if d == |m| then
      if |m| > 0 && AllDigits(m) then Some((DigitsValue(m), 0)) else None
    else
      var whole, fraction := m[..d], m[d + 1..];
      if AllDigits(whole) && AllDigits(fraction) && |whole| + |fraction| > 0 then
        Some((DigitsValue(whole + fraction), |fraction|))
      else None
  }

  /** The exponent part: empty, or `e`/`E` followed by a signed integer. */
  function ParseExponent(x: string): Option<int> {
    if x == [] then Some(0)
    else if x[0] == 'e' || x[0] == 'E' then ParseInt(x[1..])
    else None
  }

  /** `float(s)`: `None` where Python raises `ValueError`. */
  function ParseFloat(s: string): Option<Decimal> {
    var (negative, body) := SplitSign(s);
    var e := IndexOfExponent(body);
    var mantissa, exponent := ParseMantissa(body[..e]), ParseExponent(body[e..]);
    if mantissa.Some? && exponent.Some? then
      Some(Decimal(negative, mantissa.value.0, exponent.value - mantissa.value.1))
    else None
  }

  /** Every literal `int` accepts, `float` accepts too, with the same value:
      so an integer that is zero is also a float that is zero. */
  lemma IntIsFloat(s: string)
    requires ParseInt(s).Some?
    ensures ParseFloat(s).Some?
    ensures ParseFloat(s).value.mantissa as int
      == (if ParseInt(s).value < 0 then -ParseInt(s).value else ParseInt(s).value)
    ensures ParseFloat(s).value.exponent == 0
  {
    var (negative, body) := SplitSign(s);
    assert forall j :: 0 <= j < |body| ==> body[j] != 'e' && body[j] != 'E' && body[j] != '.' by {
      forall j | 0 <= j < |body| ensures body[j] != 'e' && body[j] != 'E' && body[j] != '.' {
        assert IsDigit(body[j]);
      }
    }
    assert IndexOfExponent(body) == |body|;
    assert body[..|body|] == body && body[|body|..] == [];
    assert IndexOf(body, '.') == |body|;
  }

  /** A value that starts with anything but a digit, a sign or a point is
      neither an `int` nor a `float`. */
  lemma NotANumber(s: string)
    requires |s| > 0 && !IsDigit(s[0]) && s[0] !in "+-."
    ensures ParseInt(s).None? && ParseFloat(s).None?
  {
    var (negative, body) := SplitSign(s);
    assert body == s;
    var e := IndexOfExponent(body);
    var m := body[..e];
    if e > 0 {
      assert m[0] == s[0];
      var d := IndexOf(m, '.');
      assert d > 0;
      if d < |m| {
        assert m[..d][0] == s[0];
      }
    }
  }

  /** Python's `str(n)` for a natural number. */
  function NatToString(n: nat): (r: string)
    ensures |r| > 0 && AllDigits(r)
  {
    if n < 10 then ['0' + n as char] else NatToString(n / 10) + ['0' + (n % 10) as char]
  }

  /** Python's `str(n)`. */
  function IntToString(n: int): string {
    if n < 0 then "-" + NatToString(-n) else NatToString(n)
  }

  lemma {:induction false} NatToStringValue(n: nat)
    ensures DigitsValue(NatToString(n)) == n
  {
    var r := NatToString(n);
    if n >= 10 {
      NatToStringValue(n / 10);
      assert r[..|r| - 1] == NatToString(n / 10);
    }
  }

  /** `int(str(n)) == n`. */
  lemma IntRoundTrip(n: int)
    ensures ParseInt(IntToString(n)) == Some(n)
  {
    if n < 0 {
      NatToStringValue(-n);
      assert ("-" + NatToString(-n))[1..] == NatToString(-n);
    } else {
      NatToStringValue(n);
    }
  }
}
