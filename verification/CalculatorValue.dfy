/** What the calculator's numbers and operators are worth, said apart from how they are computed. */
module CalculatorValue {
  import opened Calculator
  import opened CalculatorGrammar

  /* ---- operators ---- */

  lemma Products(a: real, b: real)
    ensures Factor('*', a, b) == a * b
  {
  }

  /** A quotient times its divisor is the dividend. */
  lemma QuotientTimesDivisor(a: real, b: real)
    requires b != 0.0
    ensures Factor('/', a, b) * b == a
  {
  }

  function Abs(x: real): real { if x < 0.0 then -x else x }

  lemma TruncateLeaves(q: real)
    ensures var f := q - Truncate(q) as real;
      -1.0 < f < 1.0 && (f > 0.0 ==> q > 0.0) && (f < 0.0 ==> q < 0.0)
  {
  }

  lemma LessThanFactor(f: real, b: real)
    requires -1.0 < f < 1.0 && b != 0.0
    ensures Abs(b * f) < Abs(b) && (b * f > 0.0 <==> (b > 0.0 && f > 0.0) || (b < 0.0 && f < 0.0))
  {
    if b > 0.0 {
      assert b * (1.0 - f) > 0.0 && b * (1.0 + f) > 0.0;
    } else {
      var c := -b;
      assert c * (1.0 - f) > 0.0 && c * (1.0 + f) > 0.0;
      assert b * f == -(c * f);
    }
    if f > 0.0 { SignOf(f, b); } else if f < 0.0 { SignOf(-f, b); }
  }

  lemma SignOf(f: real, b: real)
    requires f > 0.0
    ensures b > 0.0 ==> b * f > 0.0
    ensures b < 0.0 ==> b * f < 0.0
  {
  }

  function Times(b: real, k: int): real { b * k as real }

  /**
   * A remainder is off the dividend by a whole number of divisors, smaller
   * than the divisor, and zero or of the dividend's sign.
   */
  lemma RemainderIs(a: real, b: real)
    requires b != 0.0
    ensures var r := Factor('%', a, b);
      && (exists k: int :: a - r == Times(b, k))
      && Abs(r) < Abs(b)
      && (r > 0.0 ==> a > 0.0) && (r < 0.0 ==> a < 0.0)
  {
    var q := a / b;
    var f := q - Truncate(q) as real;
    TruncateLeaves(q);
    LessThanFactor(f, b);
    var k := Truncate(q);
    assert a == b * q;
    assert b * f == b * q - b * k as real;
    assert Factor('%', a, b) == b * f;
    hide Truncate;
    assert a - Factor('%', a, b) == Times(b, k);
    if f != 0.0 {
      SignOf(if f > 0.0 then f else -f, b);
      SignOf(if q > 0.0 then q else -q, b);
    }
  }

  /** 7/2 is 3.5, 7%2 is 1 and -7%2 is -1. */
  lemma SevenAndTwo()
    ensures Factor('/', 7.0, 2.0) == 3.5 && Factor('%', 7.0, 2.0) == 1.0 && Factor('%', -7.0, 2.0) == -1.0
  {
    assert Truncate(3.5) == 3;
    assert Truncate(-3.5) == -3;
  }

  /* ---- numbers ---- */

  function Power(n: nat): real { if n == 0 then 1.0 else 10.0 * Power(n - 1) }

  /** The number that digits are the decimal notation of. */
  function Natural(ds: string): real
    requires AllDigits(ds)
  {
    if ds == "" then 0.0 else Natural(ds[..|ds| - 1]) * 10.0 + DigitValue(ds[|ds| - 1])
  }

  /** The first digit is worth most. */
  lemma {:induction false} NaturalFromFront(ds: string)
    requires AllDigits(ds) && ds != ""
    ensures Natural(ds) == DigitValue(ds[0]) * Power(|ds| - 1) + Natural(ds[1..])
  {
    if |ds| == 1 {
      assert ds[..0] == "" && ds[1..] == "";
    } else {
      var front := ds[..|ds| - 1];
      NaturalFromFront(front);
      assert front[1..] == ds[1..][..|ds| - 2];
      assert ds[1..][|ds| - 2] == ds[|ds| - 1];
      assert Power(|ds| - 1) == 10.0 * Power(|ds| - 2);
    }
  }

  lemma {:induction false} WholeIsNatural(value: real, ds: string)
    requires AllDigits(ds)
    ensures Whole(value, ds) == value * Power(|ds|) + Natural(ds)
    decreases |ds|
  {
    if ds != "" {
      var next := value * 10.0 + DigitValue(ds[0]);
      var p := Power(|ds| - 1);
      WholeIsNatural(next, ds[1..]);
      NaturalFromFront(ds);
      assert next * p == value * (10.0 * p) + DigitValue(ds[0]) * p;
    }
  }

  lemma {:induction false} FractionIsNatural(ds: string)
    requires AllDigits(ds)
    ensures Fraction(ds) * Power(|ds|) == Natural(ds)
  {
    if ds != "" {
      FractionIsNatural(ds[1..]);
      NaturalFromFront(ds);
      var f, p := DigitValue(ds[0]) + Fraction(ds[1..]), Power(|ds| - 1);
      assert (f / 10.0) * (10.0 * p) == f * p;
    }
  }

  lemma TenTimes(a: real, p: real, n: real, d: real)
    ensures (a * p + n) * 10.0 + d == a * (10.0 * p) + (n * 10.0 + d)
  {
  }

  lemma {:induction false} NaturalConcat(a: string, b: string)
    requires AllDigits(a) && AllDigits(b)
    ensures AllDigits(a + b) && Natural(a + b) == Natural(a) * Power(|b|) + Natural(b)
    decreases |b|
  {
    if b == "" {
      assert a + b == a;
    } else {
      var k := |b| - 1;
      NaturalConcat(a, b[..k]);
      assert (a + b)[..|a| + k] == a + b[..k] && (a + b)[|a| + k] == b[k];
      TenTimes(Natural(a), Power(k), Natural(b[..k]), DigitValue(b[k]));
      hide DigitValue;
    }
  }

  lemma WholeFromZero(ds: string)
    requires AllDigits(ds)
    ensures Whole(0.0, ds) == Natural(ds)
  {
    WholeIsNatural(0.0, ds);
  }

  lemma ValueIsDecimal(whole: string, frac: string)
    requires AllDigits(whole) && AllDigits(frac)
    ensures AllDigits(whole + frac)
    ensures (Whole(0.0, whole) + Fraction(frac)) * Power(|frac|) == Natural(whole + frac)
  {
    hide Whole;
    hide Fraction;
    hide Natural;
    hide Power;
    WholeFromZero(whole);
    FractionIsNatural(frac);
    NaturalConcat(whole, frac);
    SumTimes(Whole(0.0, whole), Fraction(frac), Power(|frac|));
  }

  lemma ValueOfNumber(pad: string, whole: string, point: bool, frac: string)
    requires AllDigits(whole) && AllDigits(frac)
    ensures Eval(Num(pad, whole, point, frac)) == Answer(Whole(0.0, whole) + Fraction(frac))
  {
    hide Whole;
    hide Fraction;
    hide Apply;
  }

  /** A number is worth its digits as one decimal number, the point moved as many places as digits follow it. */
  lemma NumberIsDecimal(pad: string, whole: string, point: bool, frac: string)
    requires AllDigits(whole) && AllDigits(frac)
    ensures Eval(Num(pad, whole, point, frac)).Answer?
    ensures AllDigits(whole + frac) &&
            Eval(Num(pad, whole, point, frac)).value * Power(|frac|) == Natural(whole + frac)
  {
    hide Eval;
    hide Whole;
    hide Fraction;
    hide Natural;
    hide Power;
    ValueOfNumber(pad, whole, point, frac);
    ValueIsDecimal(whole, frac);
  }

  lemma SumTimes(a: real, b: real, p: real)
    ensures (a + b) * p == a * p + b * p
  {
  }

  /* ---- whole answers ---- */

  /** A quotient of two expressions is answered, if at all, with what times the divisor is the dividend. */
  lemma QuotientsDivide(left: Tree, pad: string, right: Tree)
    requires Eval(left).Answer? && Eval(right).Answer?
    ensures Eval(Bin(left, pad, '/', right)).Answer? <==> Eval(right).value != 0.0
    ensures Eval(right).value != 0.0 ==>
      Eval(Bin(left, pad, '/', right)).value * Eval(right).value == Eval(left).value
  {
  }
}
