/**
 * The slice of Python's `decimal` module the payment code leans on: reading
 * a plain decimal string such as "12.345000042" into a coefficient and a
 * number of fraction digits, and rounding to an integer the way the default
 * context does (ROUND_HALF_EVEN).
 */
module Decimals {
  import opened Options
  import opened Strings

  /** The non-negative value `coef / 10^exp`. */
  datatype Dec = Dec(coef: nat, exp: nat)

  /** `q` is a nearest integer to `x / d`, and an even one when `x / d` lies half way. */
  predicate NearestEven(x: int, d: int, q: int)
  {
    var err := 2 * (x - q * d);
    -d <= err <= d && (err == d || err == -d ==> q % 2 == 0)
  }

  /**
   * `x / d` rounded to the nearest integer, a tie going to the even
   * neighbour: what `to_integral_value()` and the `f` format do under the
   * default rounding mode.
   */
  function RoundHalfEven(x: nat, d: nat): nat
    requires d > 0
  {
    var q, r := x / d, x % d;
    if 2 * r > d || (2 * r == d && q % 2 == 1) then q + 1 else q
  }

  /** The rounding is to a nearest integer, ties to even, and exact on multiples of `d`. */
  lemma RoundHalfEvenNearest(x: nat, d: nat)
    requires d > 0
    ensures NearestEven(x, d, RoundHalfEven(x, d))
    ensures x % d == 0 ==> RoundHalfEven(x, d) * d == x
  {
    var q, r := x / d, x % d;
    DivMod(x, d);
    if 2 * r > d || (2 * r == d && q % 2 == 1) {
      RoundUp(x, d, q, r);
    } else {
      RoundDown(x, d, q, r);
    }
  }

  lemma DivMod(x: nat, d: nat)
    requires d > 0
    ensures x / d >= 0 && x - (x / d) * d == x % d && 0 <= x % d < d
  {
  }

  lemma RoundUp(x: int, d: int, q: int, r: int)
    requires x - q * d == r && 0 <= r < d
    requires 2 * r > d || (2 * r == d && q % 2 == 1)
    ensures NearestEven(x, d, q + 1) && r != 0
  {
    MulSucc(q, d);
  }

  lemma RoundDown(x: int, d: int, q: int, r: int)
    requires x - q * d == r && 0 <= r < d
    requires !(2 * r > d || (2 * r == d && q % 2 == 1))
    ensures NearestEven(x, d, q)
    ensures r == 0 ==> q * d == x
  {
  }

  lemma MulSucc(q: int, d: int)
    ensures (q + 1) * d == q * d + d
  {
  }

  lemma MulDiff(p: int, q: int, d: int)
    ensures p * d - q * d == (p - q) * d
  {
  }

  /** A positive multiple of `d` is at least `d`, a multiple of at least two at least `2d`. */
  lemma MulAtLeast(k: int, d: nat)
    requires k >= 1
    ensures k * d >= d
    ensures k >= 2 ==> k * d >= 2 * d
  {
    MulDiff(k, 1, d);
    MulDiff(k, 2, d);
  }

  /** Division by `d` is determined by any quotient-remainder pair. */
  lemma DivModUnique(x: int, d: int, a: int, b: int)
    requires x >= 0 && d > 0 && 0 <= b < d && x == a * d + b
    ensures x / d == a && x % d == b
  {
    var q := x / d;
    DivMod(x, d);
    MulDiff(a, q, d);
    if a > q {
      MulAtLeast(a - q, d);
      assert false;
    } else if q > a {
      MulDiff(q, a, d);
      MulAtLeast(q - a, d);
      assert false;
    }
  }

  /** Half-even rounding is the only rounding that is nearest and breaks ties to even. */
  lemma RoundHalfEvenUnique(x: nat, d: nat, q: nat)
    requires d > 0 && NearestEven(x, d, q)
    ensures q == RoundHalfEven(x, d)
  {
    var p := RoundHalfEven(x, d);
    RoundHalfEvenNearest(x, d);
    var e, f := x - q * d, x - p * d;
    // e - f == (p - q) * d with both errors within half of d, so p and q
    // differ by at most one, and by one only when both are exact halves.
    MulDiff(p, q, d);
    if p > q {
      MulAtLeast(p - q, d);
      assert false;
    } else if q > p {
      MulDiff(q, p, d);
      MulAtLeast(q - p, d);
      assert false;
    }
  }

  /** Dividing a multiple of `10^k` by `10^k`: the rounding is exact. */
  lemma RoundExact(c: nat, k: nat)
    ensures RoundHalfEven(c * Pow10(k), Pow10(k)) == c
  {
    var d := Pow10(k);
    assert NearestEven(c * d, d, c);
    RoundHalfEvenUnique(c * d, d, c);
  }

  /**
   * `Decimal(s)` for the plain spellings the payment code stores: ASCII
   * digits with at most one '.' among them (so "1." and ".5" too), at least
   * one digit in all. Any other string is None here.
   */
  function ParseDecimal(s: string): Option<Dec>
  {
    var parts := Split(s, '.');
    if |parts| > 2 then None
    else
      var whole := parts[0];
      var frac := if |parts| == 2 then parts[1] else "";
      if whole + frac == [] || !AllDigits(whole + frac) then None
      else Some(Dec(DigitsValue(whole + frac), |frac|))
  }

  /** Reading back `whole.frac`: the coefficient is all the digits, the exponent the fraction's length. */
  lemma ParseFixed(whole: string, frac: string)
    requires AllDigits(whole) && AllDigits(frac) && whole + frac != []
    ensures AllDigits(whole + frac)
    ensures ParseDecimal(whole + "." + frac) == Some(Dec(DigitsValue(whole + frac), |frac|))
  {
    DigitsValueAppend(whole, frac);
    NoDotInDigits(whole);
    NoDotInDigits(frac);
    assert Split(whole + "." + frac, '.') == [whole, frac] by {
      SplitAfterField(whole, frac, '.');
      SplitNoSeparator(frac, '.');
    }
  }

  /** Reading back a digit string without a point: an integer. */
  lemma ParseWhole(whole: string)
    requires AllDigits(whole) && whole != []
    ensures ParseDecimal(whole) == Some(Dec(DigitsValue(whole), 0))
  {
    NoDotInDigits(whole);
    SplitNoSeparator(whole, '.');
    assert whole + "" == whole;
  }

  lemma NoDotInDigits(s: string)
    requires AllDigits(s)
    ensures '.' !in s
  {
    forall i | 0 <= i < |s| ensures s[i] != '.' {
      assert IsDigit(s[i]);
    }
  }

  /**
   * `int((Decimal(amount) * Decimal(10 ** places)).to_integral_value())`:
   * the amount in base units of a currency with `places` decimals.
   */
  function ToBaseUnits(d: Dec, places: nat): (units: nat)
    ensures d.exp <= places ==> units == d.coef * Pow10(places - d.exp)
  {
    if d.exp <= places then
      ScaleExact(d.coef, places, d.exp);
      RoundHalfEven(d.coef * Pow10(places), Pow10(d.exp))
    else RoundHalfEven(d.coef * Pow10(places), Pow10(d.exp))
  }

  /** Scaling `c / 10^exp` up by `10^places`, `exp <= places`, needs no rounding. */
  lemma ScaleExact(c: nat, places: nat, exp: nat)
    requires exp <= places
    ensures RoundHalfEven(c * Pow10(places), Pow10(exp)) == c * Pow10(places - exp)
  {
    var a, b := Pow10(places - exp), Pow10(exp);
    Pow10Add(places - exp, exp);
    MulAssoc(c, a, b);
    RoundExact(c * a, exp);
  }

  lemma MulAssoc(a: int, b: int, c: int)
    ensures a * (b * c) == (a * b) * c
  {
  }
}
