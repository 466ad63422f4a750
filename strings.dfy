/**
 * The handful of Python string operations the bot relies on, with the
 * semantics CPython gives them: `str.split(sep)` for a one-character
 * separator, `str(int)`, `int(str)` on ASCII digits, substring search.
 */
module Strings {
  import opened Options

  predicate IsDigit(c: char) { '0' <= c <= '9' }

  predicate AllDigits(s: string) { forall i :: 0 <= i < |s| ==> IsDigit(s[i]) }

  function DigitValue(c: char): (d: nat)
    requires IsDigit(c)
    ensures d < 10
  {
    (c as int) - ('0' as int)
  }

  function DigitChar(d: nat): (c: char)
    requires d < 10
    ensures IsDigit(c) && DigitValue(c) == d
  {
    (('0' as int) + d) as char
  }

  function Pow10(n: nat): (p: nat)
    ensures p >= 1
  {
    if n == 0 then 1 else 10 * Pow10(n - 1)
  }

  lemma {:induction false} Pow10Add(a: nat, b: nat)
    ensures Pow10(a + b) == Pow10(a) * Pow10(b)
  {
    if b > 0 {
      Pow10Add(a, b - 1);
      calc {
        Pow10(a + b);
        10 * Pow10(a + b - 1);
        10 * (Pow10(a) * Pow10(b - 1));
        Pow10(a) * (10 * Pow10(b - 1));
      }
    }
  }

  /** The number an all-digit string denotes in base ten; leading zeros are allowed. */
  function DigitsValue(s: string): (v: nat)
    requires AllDigits(s)
    ensures v < Pow10(|s|)
  {
    if s == [] then 0 else DigitsValue(s[..|s| - 1]) * 10 + DigitValue(s[|s| - 1])
  }

  /** Reading `a + b` is reading `a`, shifting by `|b|` places and adding `b`. */
  lemma {:induction false} DigitsValueAppend(a: string, b: string)
    requires AllDigits(a) && AllDigits(b)
    ensures AllDigits(a + b)
    ensures DigitsValue(a + b) == DigitsValue(a) * Pow10(|b|) + DigitsValue(b)
  {
    assert AllDigits(a + b) by {
      forall i | 0 <= i < |a + b| ensures IsDigit((a + b)[i]) {
        if i < |a| { assert (a + b)[i] == a[i]; } else { assert (a + b)[i] == b[i - |a|]; }
      }
    }
    if b == [] {
      assert a + b == a;
    } else {
      var b', ab := b[..|b| - 1], a + b;
      assert AllDigits(b');
      DigitsValueAppend(a, b');
      assert ab[..|ab| - 1] == a + b';
      assert ab[|ab| - 1] == b[|b| - 1];
      var x, y, d, p := DigitsValue(a), DigitsValue(b'), DigitValue(b[|b| - 1]), Pow10(|b'|);
      assert DigitsValue(ab) == DigitsValue(a + b') * 10 + d;
      assert DigitsValue(b) == y * 10 + d;
      assert Pow10(|b|) == p * 10;
      ShiftDigit(x, y, d, p);
    }
  }

  lemma ShiftDigit(x: int, y: int, d: int, p: int)
    ensures (x * p + y) * 10 + d == x * (p * 10) + (y * 10 + d)
  {
  }

  /** An all-digit string denotes a positive number exactly when one of its digits is not '0'. */
  lemma {:induction false} DigitsValuePositive(s: string)
    requires AllDigits(s)
    ensures DigitsValue(s) >= 1 <==> exists i :: 0 <= i < |s| && s[i] != '0'
  {
    if s != [] {
      var s' := s[..|s| - 1];
      DigitsValuePositive(s');
      if DigitsValue(s) >= 1 {
        if DigitsValue(s') >= 1 {
          var i :| 0 <= i < |s'| && s'[i] != '0';
          assert s[i] != '0';
        } else {
          assert s[|s| - 1] != '0';
        }
      } else {
        forall i | 0 <= i < |s| ensures s[i] == '0' {
          if i < |s| - 1 { assert s'[i] == s[i]; }
        }
      }
    }
  }

  /** `str(n)` for a non-negative int: the shortest decimal spelling. */
  function NatToString(n: nat): (s: string)
    ensures |s| > 0 && AllDigits(s)
    ensures |s| > 1 ==> s[0] != '0'
  {
    if n < 10 then [DigitChar(n)] else NatToString(n / 10) + [DigitChar(n % 10)]
  }

  lemma {:induction false} NatToStringValue(n: nat)
    ensures DigitsValue(NatToString(n)) == n
  {
    if n >= 10 {
      NatToStringValue(n / 10);
      var s := NatToString(n);
      assert s[..|s| - 1] == NatToString(n / 10);
    }
  }

  /** A digit string without a leading zero: how `str` spells a non-negative int. */
  predicate Canonical(s: string)
  {
    |s| > 0 && AllDigits(s) && (|s| > 1 ==> s[0] != '0')
  }

  /** `str(n)` is the one canonical spelling of `n`: "007" and "" are not `str` of anything. */
  lemma {:induction false} NatToStringCanonical(s: string, n: nat)
    ensures s == NatToString(n) <==> Canonical(s) && DigitsValue(s) == n
  {
    NatToStringValue(n);
    if Canonical(s) && DigitsValue(s) == n {
      var last := s[|s| - 1];
      if |s| == 1 {
        assert DigitChar(DigitValue(last)) == last;
      } else {
        var init := s[..|s| - 1];
        assert init[0] == s[0] && AllDigits(init);
        DigitsValuePositive(init);
        NatToStringCanonical(init, DigitsValue(init));
        assert n == DigitsValue(init) * 10 + DigitValue(last);
        assert n / 10 == DigitsValue(init) && n % 10 == DigitValue(last);
        assert DigitChar(DigitValue(last)) == last;
        assert s == init + [last];
      }
    }
  }

  /** `str(i)` for any int. */
  function IntToString(i: int): (s: string)
    ensures |s| > 0
    ensures i >= 0 <==> s[0] != '-'
  {
    if i < 0 then "-" + NatToString(-i) else NatToString(i)
  }

  /** `str(i)` is made of ASCII digits and at most a leading '-'. */
  lemma IntToStringChars(i: int)
    ensures forall k :: 0 <= k < |IntToString(i)| ==> IsDigit(IntToString(i)[k]) || (k == 0 && IntToString(i)[k] == '-')
  {
    var s := IntToString(i);
    var digits := NatToString(if i < 0 then -i else i);
    forall k | 0 <= k < |s| ensures IsDigit(s[k]) || (k == 0 && s[k] == '-') {
      if i < 0 && k > 0 { assert s[k] == digits[k - 1]; }
    }
  }

  /**
   * `int(s)` for an optional sign followed by one or more ASCII digits; any
   * other string is None here.
   */
  function ParseInt(s: string): (r: Option<int>)
    ensures r.Some? <==> |s| > 0 && (AllDigits(s) || (|s| > 1 && (s[0] == '-' || s[0] == '+') && AllDigits(s[1..])))
    ensures r.Some? && r.value < 0 ==> s[0] == '-'
  {
    if |s| > 0 && (s[0] == '-' || s[0] == '+') then
      if |s| > 1 && AllDigits(s[1..]) then
        var magnitude: int := DigitsValue(s[1..]);
        Some(if s[0] == '-' then -magnitude else magnitude)
      else None
    else if |s| > 0 && AllDigits(s) then Some(DigitsValue(s))
    else None
  }

  lemma IntToStringRoundTrip(i: int)
    ensures ParseInt(IntToString(i)) == Some(i)
  {
    var s := IntToString(i);
    if i < 0 {
      var digits := NatToString(-i);
      NatToStringValue(-i);
      assert s[0] == '-' && s[1..] == digits;
      assert |s| > 1 && AllDigits(s[1..]);
    } else {
      NatToStringValue(i);
      assert s == NatToString(i) && s[0] != '-' && s[0] != '+';
    }
  }

  /** First index of `c` in `s`, or `|s|` when `c` does not occur. */
  function IndexOf(s: string, c: char): (i: nat)
    ensures i <= |s|
    ensures i < |s| ==> s[i] == c
    ensures forall k :: 0 <= k < i ==> s[k] != c
  {
    if s == [] then 0
    else if s[0] == c then 0
    else 1 + IndexOf(s[1..], c)
  }

  function CountChar(s: string, c: char): nat
  {
    if s == [] then 0 else (if s[0] == c then 1 else 0) + CountChar(s[1..], c)
  }

  /** `s.split(sep)` for a one-character separator. */
  function Split(s: string, sep: char): (parts: seq<string>)
    ensures |parts| >= 1
    decreases |s|
  {
    var i := IndexOf(s, sep);
    if i == |s| then [s] else [s[..i]] + Split(s[i + 1..], sep)
  }

  /** `sep.join(parts)`. */
  function Join(parts: seq<string>, sep: char): string
    requires |parts| >= 1
  {
    if |parts| == 1 then parts[0] else parts[0] + [sep] + Join(parts[1..], sep)
  }

  /** The last field of `s.split(sep)`, Python's `s.split(sep)[-1]`. */
  function LastField(s: string, sep: char): string
  {
    var parts := Split(s, sep);
    parts[|parts| - 1]
  }

  lemma {:induction false} SplitNoSeparator(s: string, sep: char)
    requires sep !in s
    ensures Split(s, sep) == [s]
  {
  }

  /** Splitting a field that has no separator, then a separator, then the rest. */
  lemma {:induction false} SplitAfterField(a: string, b: string, sep: char)
    requires sep !in a
    ensures Split(a + [sep] + b, sep) == [a] + Split(b, sep)
  {
    var s := a + [sep] + b;
    var i := IndexOf(s, sep);
    assert s[|a|] == sep;
    assert i == |a|;
    assert s[..i] == a;
    assert s[i + 1..] == b;
  }

  /** Whatever precedes the last separator, `s.split(sep)[-1]` is the text after it. */
  lemma {:induction false} LastFieldAfter(a: string, b: string, sep: char)
    requires sep !in b
    ensures LastField(a + [sep] + b, sep) == b
    decreases |a|
  {
    var s := a + [sep] + b;
    var i := IndexOf(s, sep);
    if i == |a| {
      assert s[..i] == a && s[i + 1..] == b;
      SplitNoSeparator(b, sep);
    } else {
      assert i < |a| by {
        assert s[|a|] == sep;
      }
      assert s[i + 1..] == a[i + 1..] + [sep] + b;
      LastFieldAfter(a[i + 1..], b, sep);
    }
  }

  /** A leading field without the separator does not change the last field. */
  lemma LastFieldSkipsField(a: string, b: string, sep: char)
    requires sep !in a
    ensures LastField(a + [sep] + b, sep) == LastField(b, sep)
  {
    SplitAfterField(a, b, sep);
    var tail := Split(b, sep);
    assert ([a] + tail)[|tail|] == tail[|tail| - 1];
  }

  /** `sep.join(parts).split(sep) == parts` when no field holds the separator. */
  lemma {:induction false} SplitJoin(parts: seq<string>, sep: char)
    requires |parts| >= 1
    requires forall k :: 0 <= k < |parts| ==> sep !in parts[k]
    ensures Split(Join(parts, sep), sep) == parts
  {
    if |parts| == 1 {
      SplitNoSeparator(parts[0], sep);
    } else {
      SplitJoin(parts[1..], sep);
      SplitAfterField(parts[0], Join(parts[1..], sep), sep);
      assert [parts[0]] + parts[1..] == parts;
    }
  }

  /** `sep.join(s.split(sep)) == s`. */
  lemma {:induction false} JoinSplit(s: string, sep: char)
    ensures Join(Split(s, sep), sep) == s
    decreases |s|
  {
    var i := IndexOf(s, sep);
    if i < |s| {
      var rest := s[i + 1..];
      JoinSplit(rest, sep);
      var parts := Split(s, sep);
      assert parts[0] == s[..i] && parts[1..] == Split(rest, sep);
      assert s == s[..i] + [sep] + rest;
    }
  }

  /** No field of `s.split(sep)` holds the separator. */
  lemma {:induction false} SplitFieldsLackSeparator(s: string, sep: char)
    ensures forall k :: 0 <= k < |Split(s, sep)| ==> sep !in Split(s, sep)[k]
    decreases |s|
  {
    var i := IndexOf(s, sep);
    if i < |s| {
      SplitFieldsLackSeparator(s[i + 1..], sep);
      var parts := Split(s, sep);
      assert parts[1..] == Split(s[i + 1..], sep);
      forall k | 0 <= k < |parts| ensures sep !in parts[k] {
        if k > 0 { assert parts[k] == parts[1..][k - 1]; }
      }
    }
  }

  /** `s.split(sep)` has one more field than `s` has separators. */
  lemma {:induction false} SplitCount(s: string, sep: char)
    ensures |Split(s, sep)| == CountChar(s, sep) + 1
    decreases |s|
  {
    var i := IndexOf(s, sep);
    if i == |s| {
      NoOccurrenceCount(s, sep);
    } else {
      var rest := s[i + 1..];
      SplitCount(rest, sep);
      assert s == s[..i] + [sep] + rest;
      CountAppend(s[..i] + [sep], rest, sep);
      CountAppend(s[..i], [sep], sep);
      NoOccurrenceCount(s[..i], sep);
    }
  }

  lemma {:induction false} NoOccurrenceCount(s: string, c: char)
    requires forall k :: 0 <= k < |s| ==> s[k] != c
    ensures CountChar(s, c) == 0
  {
    if s != [] {
      NoOccurrenceCount(s[1..], c);
    }
  }

  lemma {:induction false} CountAppend(a: string, b: string, c: char)
    ensures CountChar(a + b, c) == CountChar(a, c) + CountChar(b, c)
  {
    if a != [] {
      assert (a + b)[1..] == a[1..] + b;
      CountAppend(a[1..], b, c);
    } else {
      assert a + b == b;
    }
  }

  /** `sub in s`, Python's substring test. */
  predicate Contains(s: string, sub: string)
    decreases |s|
  {
    |sub| <= |s| && (s[..|sub|] == sub || Contains(s[1..], sub))
  }

  lemma {:induction false} ContainsAt(s: string, sub: string, i: nat)
    requires i + |sub| <= |s| && s[i..i + |sub|] == sub
    ensures Contains(s, sub)
    decreases i
  {
    if i > 0 {
      assert s[1..][i - 1..i - 1 + |sub|] == s[i..i + |sub|];
      ContainsAt(s[1..], sub, i - 1);
    }
  }

  /** A text that holds `sub` still holds it with more appended. */
  lemma {:induction false} ContainsPrefix(a: string, b: string, sub: string)
    requires Contains(a, sub)
    ensures Contains(a + b, sub)
    decreases |a|
  {
    assert (a + b)[..|sub|] == a[..|sub|];
    if a[..|sub|] != sub {
      assert (a + b)[1..] == a[1..] + b;
      ContainsPrefix(a[1..], b, sub);
    }
  }

  /** The first field of `s.split(sep)` does not depend on what follows a separator. */
  lemma {:induction false} SplitPrefixField(a: string, b: string, sep: char)
    requires |b| > 0 && b[0] == sep
    ensures Split(a + b, sep)[0] == Split(a, sep)[0]
  {
    var s := a + b;
    assert s[|a|] == sep;
    var i := IndexOf(a, sep);
    if i < |a| {
      assert IndexOf(s, sep) == i by {
        assert s[i] == sep;
        assert forall k :: 0 <= k < i ==> s[k] == a[k];
      }
      assert s[..i] == a[..i];
    } else {
      assert IndexOf(s, sep) == |a|;
      assert s[..|a|] == a;
    }
  }
}
