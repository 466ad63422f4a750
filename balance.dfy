/**
 * Payment amounts of the balance dialog (bot/dialogs/balance.py): the check
 * on the USD sum the user types, and the crypto amount the user is asked to
 * send, whose last four fraction digits are a random suffix that later
 * identifies the transfer.
 */
module Balance {
  import opened Options
  import opened Strings
  import opened Decimals

  // ---------------------------------------------------------------------
  // check_input_text

  /**
   * `check_input_text`: truthy only for a non-empty string of digits whose
   * value is at least 1. `None` is a message that carries no text.
   */
  function CheckInputText(text: Option<string>): (r: bool)
    ensures r <==> text.Some? && AllDigits(text.value) && ParseInt(text.value).Some? && ParseInt(text.value).value >= 1
  {
    assert text.Some? && text.value != [] && AllDigits(text.value) ==> ParseInt(text.value) == Some(DigitsValue(text.value)) by {
      if text.Some? && text.value != [] && AllDigits(text.value) {
        assert IsDigit(text.value[0]);
      }
    }
    if text.None? || text.value == [] then false
    else if !AllDigits(text.value) then false
    else if DigitsValue(text.value) < 1 then false
    else true
  }

  /** Accepted are exactly the non-empty digit strings with a digit other than '0'. */
  lemma CheckInputTextExactly(text: Option<string>)
    ensures CheckInputText(text) <==>
      text.Some? && text.value != [] && AllDigits(text.value)
      && exists i :: 0 <= i < |text.value| && text.value[i] != '0'
  {
    if text.Some? && text.value != [] && AllDigits(text.value) {
      DigitsValuePositive(text.value);
    }
  }

  /** "0" and "00" are refused, "007" is accepted, and so is nothing that is not a digit. */
  lemma CheckInputTextExamples()
    ensures !CheckInputText(Some("0")) && !CheckInputText(Some("00"))
    ensures CheckInputText(Some("007"))
    ensures !CheckInputText(Some("1.5")) && !CheckInputText(Some("")) && !CheckInputText(None)
  {
    CheckInputTextExactly(Some("0"));
    CheckInputTextExactly(Some("00"));
    CheckInputTextExactly(Some("007"));
    assert "007"[2] != '0';
    assert !IsDigit("1.5"[1]);
  }

  // ---------------------------------------------------------------------
  // apply_suffix

  /** Python's `s[:stop]`: a negative `stop` counts from the end, and both ends are clamped. */
  function SliceTo(s: string, stop: int): (r: string)
    ensures |r| <= |s| && r == s[..|r|]
    ensures 0 <= stop <= |s| ==> |r| == stop
    ensures stop < 0 ==> |r| == (if |s| + stop > 0 then |s| + stop else 0)
  {
    if stop >= |s| then s
    else if stop >= 0 then s[..stop]
    else if |s| + stop > 0 then s[..|s| + stop]
    else []
  }

  /**
   * `apply_suffix(base, suffix)`: the unpacking `int_part, frac_part =
   * base.split('.')` raises unless `base` holds exactly one '.', modelled as
   * None; otherwise the fraction loses its last `len(suffix)` digits (Python
   * slicing rules) and gets the suffix appended.
   */
  function ApplySuffix(base: string, suffix: string): (r: Option<string>)
    ensures r.Some? ==> |suffix| <= |r.value| && r.value[|r.value| - |suffix|..] == suffix
  {
    var parts := Split(base, '.');
    if |parts| != 2 then None
    else
      var intPart, frac := parts[0], parts[1];
      Some(intPart + "." + (SliceTo(frac, |frac| - |suffix|) + suffix))
  }

  /** The unpacking succeeds exactly when `base` holds one '.'. */
  lemma ApplySuffixDefined(base: string, suffix: string)
    ensures ApplySuffix(base, suffix).Some? <==> CountChar(base, '.') == 1
  {
    SplitCount(base, '.');
  }

  /**
   * With a suffix no longer than the fraction, the integer part is kept, the
   * fraction keeps its length and its leading digits, and the suffix fills
   * its last digits.
   */
  lemma ApplySuffixStamps(whole: string, frac: string, suffix: string)
    requires '.' !in whole && '.' !in frac && |suffix| <= |frac|
    ensures ApplySuffix(whole + "." + frac, suffix)
         == Some(whole + "." + (frac[..|frac| - |suffix|] + suffix))
  {
    assert Split(whole + "." + frac, '.') == [whole, frac] by {
      SplitAfterField(whole, frac, '.');
      SplitNoSeparator(frac, '.');
    }
  }

  /**
   * A suffix longer than the fraction: `frac[:N-M]` counts from the end, so
   * the first `2N-M` digits survive (none when that is not positive) and the
   * result has more fraction digits than `base`.
   */
  lemma ApplySuffixLongSuffix(whole: string, frac: string, suffix: string)
    requires '.' !in whole && '.' !in frac && |suffix| > |frac|
    ensures var kept := if 2 * |frac| > |suffix| then 2 * |frac| - |suffix| else 0;
      ApplySuffix(whole + "." + frac, suffix) == Some(whole + "." + (frac[..kept] + suffix))
  {
    assert Split(whole + "." + frac, '.') == [whole, frac] by {
      SplitAfterField(whole, frac, '.');
      SplitNoSeparator(frac, '.');
    }
  }

  /**
   * Read as a decimal, the stamped amount keeps every digit of `whole.frac`
   * above the last `|suffix|` places, and its last `|suffix|` places are the
   * suffix.
   */
  lemma StampedValue(whole: string, frac: string, suffix: string)
    requires AllDigits(whole) && AllDigits(frac) && AllDigits(suffix)
    requires |suffix| <= |frac| && whole != []
    ensures AllDigits(whole + frac) && AllDigits(whole + (frac[..|frac| - |suffix|] + suffix))
    ensures var stamped := frac[..|frac| - |suffix|] + suffix;
      ParseDecimal(whole + "." + stamped) == Some(Dec(DigitsValue(whole + stamped), |frac|))
    ensures var p := Pow10(|suffix|); var v := DigitsValue(whole + frac);
      DigitsValue(whole + (frac[..|frac| - |suffix|] + suffix)) == (v / p) * p + DigitsValue(suffix)
  {
    var head := frac[..|frac| - |suffix|];
    var a, t := StampedDigits(whole, frac, suffix);
    var p, v, st := Pow10(|suffix|), DigitsValue(whole + frac), head + suffix;
    DivModUnique(v, p, a, t);
    ParseFixed(whole, st);
    var c := DigitsValue(whole + st);
    assert c == (v / p) * p + DigitsValue(suffix);
    assert ParseDecimal(whole + "." + st) == Some(Dec(c, |frac|));
  }

  /** The digit values behind `StampedValue`: `whole.frac` and the stamped amount share the digits above the suffix. */
  lemma StampedDigits(whole: string, frac: string, suffix: string) returns (a: nat, t: nat)
    requires AllDigits(whole) && AllDigits(frac) && AllDigits(suffix) && |suffix| <= |frac|
    ensures AllDigits(whole + frac) && AllDigits(frac[..|frac| - |suffix|] + suffix)
    ensures DigitsValue(whole + frac) == a * Pow10(|suffix|) + t && t < Pow10(|suffix|)
    ensures DigitsValue(whole + (frac[..|frac| - |suffix|] + suffix)) == a * Pow10(|suffix|) + DigitsValue(suffix)
  {
    var m := |frac| - |suffix|;
    var head, tail := frac[..m], frac[m..];
    assert AllDigits(head) && AllDigits(tail);
    DigitsValueAppend(whole, head);
    a, t := DigitsValue(whole + head), DigitsValue(tail);
    assert whole + frac == (whole + head) + tail by { assert frac == head + tail; }
    DigitsValueAppend(whole + head, tail);
    assert whole + (head + suffix) == (whole + head) + suffix;
    DigitsValueAppend(whole + head, suffix);
    DigitsValueAppend(head, suffix);
  }

  // ---------------------------------------------------------------------
  // generate_amount

  function Zeros(n: nat): (z: string)
    ensures |z| == n && AllDigits(z)
  {
    if n == 0 then "" else Zeros(n - 1) + "0"
  }

  lemma {:induction false} ZerosValue(n: nat)
    ensures DigitsValue(Zeros(n)) == 0
  {
    if n > 0 {
      ZerosValue(n - 1);
      assert Zeros(n)[..n - 1] == Zeros(n - 1);
    }
  }

  /** Left-pads a digit string with '0' to `width` characters, as the `f` format does for the fraction. */
  function PadLeft(s: string, width: nat): (r: string)
    requires AllDigits(s)
    ensures AllDigits(r) && |r| == (if |s| < width then width else |s|)
    ensures DigitsValue(r) == DigitsValue(s)
  {
    if |s| < width then
      ZerosValue(width - |s|);
      DigitsValueAppend(Zeros(width - |s|), s);
      Zeros(width - |s|) + s
    else s
  }

  /** A number below `10^k`, `k >= 1`, is spelled with at most `k` digits. */
  lemma {:induction false} NatToStringShort(n: nat, k: nat)
    requires k >= 1 && n < Pow10(k)
    ensures |NatToString(n)| <= k
  {
    if n >= 10 {
      assert Pow10(1) == 10;
      assert k >= 2;
      assert n / 10 < Pow10(k - 1);
      NatToStringShort(n / 10, k - 1);
    }
  }

  /** `num / den` in units of the last of `places` decimals, rounded half-even. */
  function Scaled(num: nat, den: nat, places: nat): nat
    requires den > 0
  {
    RoundHalfEven(num * Pow10(places), den)
  }

  /**
   * `f"{num/den:.{places}f}"` for a non-negative Decimal: the quotient
   * rounded half-even to `places` fraction digits, the fraction zero-padded,
   * and no '.' at all when `places` is 0.
   */
  function FormatFixed(num: nat, den: nat, places: nat): (r: string)
    requires den > 0
    ensures places == 0 ==> r != [] && AllDigits(r)
    ensures places > 0 ==>
      && |r| >= places + 2 && r[|r| - places - 1] == '.'
      && AllDigits(r[..|r| - places - 1]) && AllDigits(r[|r| - places..])
  {
    var p := Pow10(places);
    var scaled := Scaled(num, den, places);
    DivMod(scaled, p);
    var whole := NatToString(scaled / p);
    if places == 0 then whole
    else
      NatToStringShort(scaled % p, places);
      var frac := PadLeft(NatToString(scaled % p), places);
      var r := whole + "." + frac;
      assert r[..|whole|] == whole && r[|whole| + 1..] == frac;
      r
  }

  /**
   * The formatted amount reads back as the quotient rounded half-even to
   * exactly `places` fraction digits.
   */
  lemma FormatFixedValue(num: nat, den: nat, places: nat)
    requires den > 0
    ensures ParseDecimal(FormatFixed(num, den, places)) == Some(Dec(Scaled(num, den, places), places))
  {
    var p := Pow10(places);
    var scaled := Scaled(num, den, places);
    DivMod(scaled, p);
    var q, r := scaled / p, scaled % p;
    var whole := NatToString(q);
    NatToStringValue(q);
    if places == 0 {
      assert p == 1 && q == scaled;
      ParseWhole(whole);
      assert FormatFixed(num, den, places) == whole;
      assert ParseDecimal(whole) == Some(Dec(scaled, places));
    } else {
      var frac := PadLeft(NatToString(r), places);
      NatToStringValue(r);
      NatToStringShort(r, places);
      assert |frac| == places;
      assert FormatFixed(num, den, places) == whole + "." + frac;
      ParseFixed(whole, frac);
      DigitsValueAppend(whole, frac);
      Recompose(scaled, p);
      assert DigitsValue(whole + frac) == scaled;
      assert ParseDecimal(whole + "." + frac) == Some(Dec(scaled, places));
    }
  }

  lemma Recompose(x: nat, d: nat)
    requires d > 0
    ensures (x / d) * d + x % d == x
  {
  }

  /** The digits of the formatted amount: a point, then exactly `places` fraction digits. */
  lemma FormatFixedShape(num: nat, den: nat, places: nat)
    requires den > 0 && places >= 1
    ensures exists whole, frac ::
      AllDigits(whole) && whole != [] && AllDigits(frac) && |frac| == places
      && FormatFixed(num, den, places) == whole + "." + frac
  {
    var p := Pow10(places);
    var scaled := Scaled(num, den, places);
    DivMod(scaled, p);
    var whole := NatToString(scaled / p);
    var frac := PadLeft(NatToString(scaled % p), places);
    NatToStringShort(scaled % p, places);
    assert FormatFixed(num, den, places) == whole + "." + frac;
  }

  /**
   * `generate_amount(usd, rate, suffix, places)` with the exact quotient
   * `usd / rate` given as `num / den`: a zero rate raises, modelled as None.
   */
  function GenerateAmount(num: nat, den: nat, suffix: string, places: nat): (r: Option<string>)
    ensures r.Some? ==> den > 0 && |suffix| <= |r.value| && r.value[|r.value| - |suffix|..] == suffix
  {
    if den == 0 then None else ApplySuffix(FormatFixed(num, den, places), suffix)
  }

  /** With no decimals the formatted amount has no '.', and `apply_suffix` raises. */
  lemma GenerateAmountNoDecimals(num: nat, den: nat, suffix: string)
    ensures GenerateAmount(num, den, suffix, 0) == None
  {
    if den > 0 {
      var s := FormatFixed(num, den, 0);
      NoDotInDigits(s);
      SplitNoSeparator(s, '.');
    }
  }

  /**
   * `c` is `scaled` with its last `|suffix|` decimal digits replaced by the
   * suffix: the same above those digits, the suffix below.
   */
  predicate StampedOver(c: nat, scaled: nat, suffix: string)
    requires AllDigits(suffix)
  {
    var p := Pow10(|suffix|);
    c / p == scaled / p && c % p == DigitsValue(suffix)
  }

  /**
   * With `places >= |suffix|` decimals, the amount is the quotient rounded
   * to `places` decimals with its last `|suffix|` digits replaced by the
   * suffix; it still has exactly `places` fraction digits.
   */
  lemma GenerateAmountStamps(num: nat, den: nat, suffix: string, places: nat)
    requires den > 0 && places >= 1 && |suffix| <= places && AllDigits(suffix)
    ensures var r := GenerateAmount(num, den, suffix, places);
      r.Some? && ParseDecimal(r.value).Some? && ParseDecimal(r.value).value.exp == places
      && StampedOver(ParseDecimal(r.value).value.coef, Scaled(num, den, places), suffix)
  {
    FormatFixedShape(num, den, places);
    var whole, frac :| AllDigits(whole) && whole != [] && AllDigits(frac) && |frac| == places
      && FormatFixed(num, den, places) == whole + "." + frac;
    var stamped := frac[..|frac| - |suffix|] + suffix;
    NoDotInDigits(whole);
    NoDotInDigits(frac);
    ApplySuffixStamps(whole, frac, suffix);
    StampedValue(whole, frac, suffix);
    FormatFixedValue(num, den, places);
    ParseFixed(whole, frac);
    var scaled := Scaled(num, den, places);
    assert DigitsValue(whole + frac) == scaled;
    var c := DigitsValue(whole + stamped);
    var p := Pow10(|suffix|);
    assert GenerateAmount(num, den, suffix, places) == Some(whole + "." + stamped);
    assert ParseDecimal(whole + "." + stamped) == Some(Dec(c, places));
    DivMod(scaled, p);
    DivModUnique(c, p, scaled / p, DigitsValue(suffix));
  }
}
