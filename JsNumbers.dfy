/** The few pieces of JavaScript number semantics the Pluto Time code relies on,
    stated over exact reals: Math.trunc, the truncating remainder operator `%`,
    the decimal rendering of integer-valued numbers, and Number.prototype.toFixed(1). */
module JsNumbers {

  /** Math.trunc: the integer part of x, rounding toward zero. */
  function Trunc(x: real): (t: int)
    ensures x >= 0.0 ==> 0 <= t && t as real <= x < t as real + 1.0
    ensures x < 0.0 ==> t <= 0 && t as real - 1.0 < x <= t as real
  {
    if x >= 0.0 then x.Floor else -((-x).Floor)
  }

  predicate IsIntegral(x: real) {
    x.Floor as real == x
  }

  lemma TruncOfIntegral(k: int)
    ensures Trunc(k as real) == k
  {
  }

  /** JavaScript's `a % b` for a positive divisor: the remainder of the quotient
      truncated toward zero, so it carries the sign of the dividend. */
  function JsRem(a: real, b: real): (r: real)
    requires b > 0.0
    ensures a >= 0.0 ==> 0.0 <= r < b
    ensures a < 0.0 ==> -b < r <= 0.0
    ensures IsIntegral((a - r) / b)
  {
    var t := Trunc(a / b);
    RemainderOfTrunc(a, b, t);
    a - b * (t as real)
  }

  /** The facts about a - b * trunc(a / b) that JsRem promises. */
  lemma RemainderOfTrunc(a: real, b: real, t: int)
    requires b > 0.0 && t == Trunc(a / b)
    ensures a >= 0.0 ==> 0.0 <= a - b * (t as real) < b
    ensures a < 0.0 ==> -b < a - b * (t as real) <= 0.0
    ensures IsIntegral((a - (a - b * (t as real))) / b)
  {
    QuotientFacts(a, b);
    RemainderBounds(a, b, a / b, t as real);
    RemovedMultiple(a, b, t);
  }

  lemma RemovedMultiple(a: real, b: real, t: int)
    requires b > 0.0
    ensures (a - (a - b * (t as real))) / b == t as real
  {
    assert a - (a - b * (t as real)) == t as real * b;
    ScaledQuotient(t as real, b);
  }

  lemma QuotientFacts(a: real, b: real)
    requires b > 0.0
    ensures (a / b) * b == a
    ensures a >= 0.0 ==> a / b >= 0.0
    ensures a < 0.0 ==> a / b < 0.0
    ensures -b < a < b ==> -1.0 < a / b < 1.0
  {
    var q := a / b;
    assert q * b == a;
    if 0.0 <= a < b {
      ProductSign(1.0 - q, b);
      assert (1.0 - q) * b == b - q * b;
    }
    if -b < a < 0.0 {
      ProductSign(q + 1.0, b);
      assert (q + 1.0) * b == q * b + b;
    }
  }

  lemma ScaledQuotient(k: real, b: real)
    requires b > 0.0
    ensures (k * b) / b == k
  {
  }

  lemma ProductSign(x: real, y: real)
    requires y > 0.0
    ensures x >= 0.0 ==> x * y >= 0.0
    ensures x > 0.0 ==> x * y > 0.0
    ensures x < 0.0 ==> x * y < 0.0
  {
  }

  /** From t <= q < t + 1 (or t - 1 < q <= t) and a == q * b, the remainder a - b * t
      lies in [0, b) (or (-b, 0]). */
  lemma RemainderBounds(a: real, b: real, q: real, t: real)
    requires b > 0.0 && a == q * b
    requires a >= 0.0 ==> t <= q < t + 1.0
    requires a < 0.0 ==> t - 1.0 < q <= t
    ensures a >= 0.0 ==> 0.0 <= a - b * t < b
    ensures a < 0.0 ==> -b < a - b * t <= 0.0
  {
    if a >= 0.0 {
      RemainderLower(a, b, q, t);
      RemainderUpper(a, b, q, t);
    } else {
      assert -a == (-q) * b;
      RemainderLower(-a, b, -q, -t);
      RemainderUpper(-a, b, -q, -t);
      assert -a - b * -t == -(a - b * t);
    }
  }

  lemma RemainderLower(a: real, b: real, q: real, t: real)
    requires b > 0.0 && a == q * b && t <= q
    ensures 0.0 <= a - b * t
  {
    assert (q - t) * b >= 0.0;
    assert (q - t) * b == q * b - t * b;
    assert b * t == t * b;
  }

  lemma RemainderUpper(a: real, b: real, q: real, t: real)
    requires b > 0.0 && a == q * b && q < t + 1.0
    ensures a - b * t < b
  {
    ProductSign(t + 1.0 - q, b);
    assert (t + 1.0 - q) * b > 0.0;
    assert (t + 1.0 - q) * b == t * b + b - q * b;
    assert t * b + b - q * b > 0.0;
    assert q * b < t * b + b;
    assert a < t * b + b;
    assert b * t == t * b;
  }

  /** A remainder of a dividend already inside the open interval (-b, b) is the dividend. */
  lemma JsRemSmall(a: real, b: real)
    requires b > 0.0 && -b < a < b
    ensures JsRem(a, b) == a
  {
    QuotientFacts(a, b);
    assert Trunc(a / b) == 0;
  }

  // ---------------------------------------------------------------------
  // Decimal digits

  predicate IsDigit(c: char) {
    '0' <= c <= '9'
  }

  predicate AllDigits(s: string) {
    forall i :: 0 <= i < |s| ==> IsDigit(s[i])
  }

  function DigitChar(d: nat): (c: char)
    requires d < 10
    ensures IsDigit(c) && DigitValue(c) == d
  {
    ('0' as int + d) as char
  }

  function DigitValue(c: char): (d: nat)
    requires IsDigit(c)
    ensures d < 10
  {
    c as int - '0' as int
  }

  /** The decimal numeral JavaScript prints for a non-negative integer-valued number. */
  function NatToString(n: nat): string
    decreases n
  {
    if n < 10 then [DigitChar(n)] else NatToString(n / 10) + [DigitChar(n % 10)]
  }

  /** The numeral of an integer-valued number, with a leading minus sign when it is negative. */
  function IntToString(i: int): string {
    if i < 0 then "-" + NatToString(-i) else NatToString(i)
  }

  /** The value of a string of decimal digits, most significant first. */
  function DigitsValue(s: string): nat
    requires AllDigits(s)
  {
    if s == [] then 0 else DigitsValue(s[..|s| - 1]) * 10 + DigitValue(s[|s| - 1])
  }

  /** The numeral of n is a non-empty run of digits, a single one exactly below ten, with no
      leading zero, and reading it back gives n. */
  lemma {:induction false} NatToStringDigits(n: nat)
    ensures var s := NatToString(n);
      && |s| >= 1 && AllDigits(s) && (n < 10 <==> |s| == 1)
      && (|s| > 1 ==> s[0] != '0')
      && DigitsValue(s) == n
    decreases n
  {
    var s := NatToString(n);
    if n >= 10 {
      var p := NatToString(n / 10);
      NatToStringDigits(n / 10);
      assert s == p + [DigitChar(n % 10)];
      assert s[..|s| - 1] == p;
      assert s[0] == p[0];
      if |p| == 1 {
        assert p[0] == DigitChar(n / 10);
      }
    }
  }

  /** A leading zero does not change the value of a numeral. */
  lemma {:induction false} DigitsValueLeadingZero(s: string)
    requires AllDigits(s)
    ensures AllDigits("0" + s) && DigitsValue("0" + s) == DigitsValue(s)
    decreases |s|
  {
    var t := "0" + s;
    if s != [] {
      assert t[..|t| - 1] == "0" + s[..|s| - 1];
      DigitsValueLeadingZero(s[..|s| - 1]);
    }
  }

  /** The length of the run of digits that starts s. */
  function LeadingDigits(s: string): (k: nat)
    ensures k <= |s| && AllDigits(s[..k])
    ensures k < |s| ==> !IsDigit(s[k])
  {
    if s != [] && IsDigit(s[0]) then
      var k := 1 + LeadingDigits(s[1..]);
      assert s[..k] == [s[0]] + s[1..][..k - 1];
      k
    else 0
  }

  /** Reading a numeral back from the head of a string stops at the first non-digit. */
  lemma LeadingDigitsOfNumeral(n: nat, rest: string)
    requires rest == [] || !IsDigit(rest[0])
    ensures var s := NatToString(n) + rest;
      LeadingDigits(s) == |NatToString(n)| && s[..|NatToString(n)|] == NatToString(n)
  {
    NatToStringDigits(n);
    var a := NatToString(n);
    var s := a + rest;
    assert s[..|a|] == a;
  }

  // ---------------------------------------------------------------------
  // Number.prototype.toFixed(1)

  /** The number of tenths nearest to a non-negative a, taking the larger on a tie. */
  function RoundTenths(a: real): (n: nat)
    requires a >= 0.0
    ensures n as real / 10.0 - 0.05 <= a < n as real / 10.0 + 0.05
  {
    (a * 10.0 + 0.5).Floor
  }

  /** x.toFixed(1): a minus sign for a negative x (even when it rounds to zero),
      then the magnitude rounded to the nearest tenth, with one digit after the point. */
  function ToFixed1(x: real): string {
    var u := TenthsText(RoundTenths(if x < 0.0 then -x else x));
    if x < 0.0 then "-" + u else u
  }

  /** What x.toFixed(1) looks like: a minus sign exactly when x is negative, then at least one
      digit, the point and one digit, whose value in tenths is |x| rounded to the nearest tenth. */
  lemma ToFixed1Digits(x: real)
    ensures var r := ToFixed1(x);
      && |r| >= 3
      && ((x < 0.0) <==> (r[0] == '-'))
      && var u := if x < 0.0 then r[1..] else r;
         && |u| >= 3 && u[|u| - 2] == '.' && AllDigits(u[..|u| - 2]) && IsDigit(u[|u| - 1])
         && (|u| > 3 ==> u[0] != '0')
         && DigitsValue(u[..|u| - 2]) * 10 + DigitValue(u[|u| - 1]) == RoundTenths(if x < 0.0 then -x else x)
  {
    var n := RoundTenths(if x < 0.0 then -x else x);
    var u := TenthsText(n);
    TenthsTextShape(n);
    if x < 0.0 {
      assert ToFixed1(x) == "-" + u;
      assert ("-" + u)[1..] == u;
    } else {
      assert ToFixed1(x) == u;
    }
  }

  /** The unsigned text of n tenths: the whole part, the point and the tenths digit. */
  function TenthsText(n: nat): string {
    NatToString(n / 10) + "." + [DigitChar(n % 10)]
  }

  lemma TenthsTextShape(n: nat)
    ensures var u := TenthsText(n);
      && |u| >= 3 && u[|u| - 2] == '.' && AllDigits(u[..|u| - 2]) && IsDigit(u[|u| - 1])
      && (|u| > 3 ==> u[0] != '0')
      && DigitsValue(u[..|u| - 2]) * 10 + DigitValue(u[|u| - 1]) == n
  {
    var whole := NatToString(n / 10);
    NatToStringDigits(n / 10);
    var u := TenthsText(n);
    assert u[..|u| - 2] == whole;
    assert u[|u| - 1] == DigitChar(n % 10);
    assert u[0] == whole[0];
  }

}
