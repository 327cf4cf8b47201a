/**
 * Strings as JavaScript and Python produce and read them: decimal rendering
 * of integers, `pad2`, `String.prototype.split` on one separator character,
 * and `Number(...)` applied to a string.
 */
module Text {
  import opened Wrappers

  predicate IsDigit(c: char) {
    '0' <= c <= '9'
  }

  predicate AllDigits(s: string) {
    forall i :: 0 <= i < |s| ==> IsDigit(s[i])
  }

  function DigitChar(d: int): (c: char)
    requires 0 <= d < 10
    ensures IsDigit(c) && c as int - '0' as int == d
  {
    (d + '0' as int) as char
  }

  /** Decimal rendering of a natural number, without leading zeros. */
  function NatToString(n: nat): (s: string)
    ensures 1 <= |s| && AllDigits(s)
    ensures n < 10 <==> |s| == 1
    ensures 10 <= n < 100 <==> |s| == 2
    decreases n
  {
    if n < 10 then [DigitChar(n)] else NatToString(n / 10) + [DigitChar(n % 10)]
  }

  /** `"" + n` for an integer n. */
  function IntToString(n: int): string {
    if n < 0 then "-" + NatToString(-n) else NatToString(n)
  }

  /** The value of a string of decimal digits ("" has value 0). */
  function DigitsValue(s: string): nat
    requires AllDigits(s)
  {
    if s == [] then 0 else DigitsValue(s[..|s| - 1]) * 10 + (s[|s| - 1] as int - '0' as int)
  }

  lemma {:induction false} DigitsValueOfNat(n: nat)
    ensures DigitsValue(NatToString(n)) == n
    decreases n
  {
    if n >= 10 {
      var s := NatToString(n);
      assert s[..|s| - 1] == NatToString(n / 10);
      DigitsValueOfNat(n / 10);
    }
  }

  /** Two integers with the same decimal text are equal, when one of them is not negative. */
  lemma IntToStringInjective(a: int, b: nat)
    requires IntToString(a) == IntToString(b)
    ensures a == b
  {
    assert IsDigit(IntToString(a)[0]);
    if a >= 0 {
      DigitsValueOfNat(a);
      DigitsValueOfNat(b);
    }
  }

  /**
   * `Number(s)` for a string s, as far as this model needs it: a string of
   * decimal digits yields its value (the empty string yields 0, as in
   * JavaScript); every other string yields NaN, written `None`.
   */
  function JsNumber(s: string): (r: Option<int>)
    ensures r.Some? <==> AllDigits(s)
    ensures r.Some? ==> r.value >= 0
  {
    if AllDigits(s) then Some(DigitsValue(s)) else None
  }

  /** `pad2` (app/static/script.js:5): a number below 10 gets a leading "0". */
  function Pad2(n: int): string {
    if n < 10 then "0" + IntToString(n) else IntToString(n)
  }

  /** For 0 <= n < 100, Pad2 gives exactly two digits that read back as n. */
  lemma Pad2Digits(n: int)
    requires 0 <= n < 100
    ensures |Pad2(n)| == 2 && AllDigits(Pad2(n))
    ensures DigitsValue(Pad2(n)) == n && JsNumber(Pad2(n)) == Some(n)
  {
    DigitsValueOfNat(n);
    if n < 10 {
      var s := Pad2(n);
      assert s == ['0', DigitChar(n)];
      assert s[..1] == "0";
      assert DigitsValue(s[..1]) == DigitsValue([]) * 10 + 0;
    }
  }

  /** For n >= 0, Pad2 gives digits only and reads back as n. */
  lemma Pad2Value(n: int)
    requires 0 <= n
    ensures AllDigits(Pad2(n)) && JsNumber(Pad2(n)) == Some(n)
  {
    if n < 100 {
      Pad2Digits(n);
    } else {
      DigitsValueOfNat(n);
    }
  }

  /**
   * `s.split(sep)` for a one-character separator: the pieces between the
   * separators, so that there is always at least one piece and "" gives [""].
   */
  function Split(s: string, sep: char): (r: seq<string>)
    ensures |r| >= 1
  {
    if s == [] then [""]
    else
      var rest := Split(s[1..], sep);
      if s[0] == sep then [""] + rest else [[s[0]] + rest[0]] + rest[1..]
  }

  /** Splitting a piece without separators, followed by a separator and more text. */
  lemma {:induction false} SplitJoin(a: string, sep: char, b: string)
    requires sep !in a
    ensures Split(a + [sep] + b, sep) == [a] + Split(b, sep)
  {
    if a == [] {
      assert a + [sep] + b == [sep] + b;
      assert ([sep] + b)[1..] == b;
    } else {
      assert (a + [sep] + b)[1..] == a[1..] + [sep] + b;
      SplitJoin(a[1..], sep, b);
      assert [a[0]] + a[1..] == a;
    }
  }

  /** A string without separators splits into itself. */
  lemma {:induction false} SplitNone(a: string, sep: char)
    requires sep !in a
    ensures Split(a, sep) == [a]
  {
    if a != [] {
      SplitNone(a[1..], sep);
      assert [a[0]] + a[1..] == a;
    }
  }

  /** A digit string contains neither ':' nor '-'. */
  lemma DigitsHaveNoSeparators(s: string)
    requires AllDigits(s)
    ensures ':' !in s && '-' !in s
  {
    assert forall i :: 0 <= i < |s| ==> s[i] != ':' && s[i] != '-';
  }

  /** `Number(parts[i])`: NaN when there is no such piece. */
  function NumberAt(parts: seq<string>, i: nat): Option<int> {
    if i < |parts| then JsNumber(parts[i]) else None
  }

  /** `s.slice(0, n)`: at most the first n characters. */
  function Take(s: string, n: nat): (r: string)
    ensures |r| == if |s| < n then |s| else n
    ensures r <= s
  {
    if |s| <= n then s else s[..n]
  }
}
