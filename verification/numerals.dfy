/**
 * Reading numbers out of form text: Kotlin's `String.toIntOrNull()` and blank test,
 * `chkNum`, and the weight fields of the archive screen, which accept text matching
 * `\d+(\.\d+)?` and read it as a decimal number.
 */
module Numerals {
  import opened Common

  /** `\d` of a Java regex without the Unicode flag, and the digits `toIntOrNull` reads. */
  predicate IsDigit(c: char) {
    '0' <= c <= '9'
  }

  predicate AllDigits(s: string) {
    forall k :: 0 <= k < |s| ==> IsDigit(s[k])
  }

  /** The value of a string of decimal digits, most significant first. */
  function DigitsValue(s: string): (n: nat)
    requires AllDigits(s)
    ensures s == [] ==> n == 0
  {
    if s == [] then 0
    else DigitsValue(s[..|s| - 1]) * 10 + (s[|s| - 1] - '0') as int
  }

  /** The decimal text of a natural number, without leading zeros ("0" for zero). */
  function NatText(n: nat): (s: string)
    ensures s != [] && AllDigits(s)
    ensures |s| > 1 ==> s[0] != '0'
  {
    if n < 10 then [('0' as int + n) as char]
    else
      var front := NatText(n / 10);
      front + [('0' as int + n % 10) as char]
  }

  /** Reading back the decimal text of `n` gives `n`. */
  lemma {:induction false} NatTextValue(n: nat)
    ensures DigitsValue(NatText(n)) == n
  {
    if n >= 10 {
      NatTextValue(n / 10);
      var s := NatText(n);
      assert s[..|s| - 1] == NatText(n / 10);
    }
  }

  /** Kotlin's `Char.isWhitespace()`: Java whitespace or a Unicode space separator. */
  predicate IsWhitespace(c: char) {
    || c == '\t' || c == '\n' || c == '\U{000B}' || c == '\U{000C}' || c == '\r'
    || ('\U{001C}' <= c <= '\U{001F}')
    || c == ' ' || c == '\U{00A0}' || c == '\U{1680}' || ('\U{2000}' <= c <= '\U{200A}')
    || c == '\U{2028}' || c == '\U{2029}' || c == '\U{202F}' || c == '\U{205F}' || c == '\U{3000}'
  }

  /** `s.trim() == ""`: trimming removes every character, so all of them are whitespace. */
  predicate IsBlank(s: string) {
    forall k :: 0 <= k < |s| ==> IsWhitespace(s[k])
  }

  /** The syntax `toIntOrNull` accepts before its range check: an optional sign, then one or more digits. */
  predicate IntSyntax(s: string) {
    if |s| > 0 && (s[0] == '-' || s[0] == '+') then |s| > 1 && AllDigits(s[1..])
    else |s| > 0 && AllDigits(s)
  }

  /** The value of text with `IntSyntax`. */
  function SignedValue(s: string): int
    requires IntSyntax(s)
  {
    if s[0] == '-' then -(DigitsValue(s[1..]) as int)
    else if s[0] == '+' then DigitsValue(s[1..])
    else DigitsValue(s)
  }

  /**
   * `String.toIntOrNull()`: the value of an optionally signed digit string when it
   * fits in a 32-bit `Int`; null for anything else, including the empty string and a
   * lone sign.
   */
  function ToIntOrNull(s: string): (r: Option<int>)
    ensures r.Some? <==> IntSyntax(s) && MinInt32 <= SignedValue(s) <= MaxInt32
    ensures r.Some? ==> r.value == SignedValue(s) && MinInt32 <= r.value <= MaxInt32
  {
    if IntSyntax(s) && MinInt32 <= SignedValue(s) <= MaxInt32 then Some(SignedValue(s)) else None
  }

  /** `Int.toString()`: a minus sign for negative numbers, then the decimal digits. */
  function IntText(n: int): (s: string)
    ensures IntSyntax(s)
  {
    if n < 0 then "-" + NatText(-n) else NatText(n)
  }

  /** Every 32-bit `Int` survives `toString` followed by `toIntOrNull`. */
  lemma IntTextRoundTrip(n: int)
    requires MinInt32 <= n <= MaxInt32
    ensures ToIntOrNull(IntText(n)) == Some(n)
  {
    if n < 0 {
      NegativeTextValue(n);
    } else {
      NatTextValue(n);
      assert IntText(n) == NatText(n);
    }
  }

  /** The text of a negative number is a minus sign before the digits of its magnitude. */
  lemma NegativeTextValue(n: int)
    requires n < 0
    ensures IntText(n)[0] == '-' && AllDigits(IntText(n)[1..]) && DigitsValue(IntText(n)[1..]) == -n
  {
    var s := IntText(n);
    assert s[1..] == NatText(-n);
    NatTextValue(-n);
  }

  /**
   * `chkNum(numString, isInt)`: text is acceptable when it parses as the requested
   * kind of number or is blank. `isDouble` stands for `toDoubleOrNull() != null`.
   */
  function ChkNum(numString: string, isDouble: string -> bool, isInt: bool := true): (ok: bool)
    ensures IsBlank(numString) ==> ok
    ensures isInt ==> (ok <==> ToIntOrNull(numString).Some? || IsBlank(numString))
    ensures !isInt ==> (ok <==> isDouble(numString) || IsBlank(numString))
  {
    if isInt then ToIntOrNull(numString) != None || IsBlank(numString)
    else isDouble(numString) || IsBlank(numString)
  }

  /** In integer mode, `chkNum` accepts exactly the blank strings and the signed digit strings in 32-bit range. */
  lemma ChkNumInt(numString: string, isDouble: string -> bool)
    ensures ChkNum(numString, isDouble) <==>
      IsBlank(numString) || (IntSyntax(numString) && MinInt32 <= SignedValue(numString) <= MaxInt32)
  {
  }

  /** The empty string, and any string of spaces, passes `chkNum` in both modes. */
  lemma ChkNumBlank(n: nat, isDouble: string -> bool)
    ensures ChkNum(seq(n, _ => ' '), isDouble, true) && ChkNum(seq(n, _ => ' '), isDouble, false)
  {
  }

  // ---------------------------------------------------------------------------
  // The weight field: `\d+(\.\d+)?`

  /** The regex as a set of strings: digits, optionally a point and more digits. */
  ghost predicate WeightPattern(s: string) {
    || (s != [] && AllDigits(s))
    || exists p :: 0 < p < |s| - 1 && s[p] == '.' && AllDigits(s[..p]) && AllDigits(s[p + 1..])
  }

  /** The index of the first '.', or |s| if there is none. */
  function PointIndex(s: string): (p: nat)
    ensures p <= |s|
    ensures p < |s| ==> s[p] == '.'
    ensures forall k :: 0 <= k < p ==> s[k] != '.'
  {
    if s == [] then 0
    else if s[0] == '.' then 0
    else 1 + PointIndex(s[1..])
  }

  /** `field.text.matches("\\d+(\\.\\d+)?")`, decided by splitting at the first point. */
  predicate MatchesWeight(s: string) {
    var p := PointIndex(s);
    if p == |s| then s != [] && AllDigits(s)
    else 0 < p < |s| - 1 && AllDigits(s[..p]) && AllDigits(s[p + 1..])
  }

  /** Splitting at the first point decides the regex: both directions. */
  lemma MatchesWeightIsPattern(s: string)
    ensures MatchesWeight(s) <==> WeightPattern(s)
  {
    var p := PointIndex(s);
    if s != [] && AllDigits(s) {
      assert p == |s|;
    } else if WeightPattern(s) {
      var q :| 0 < q < |s| - 1 && s[q] == '.' && AllDigits(s[..q]) && AllDigits(s[q + 1..]);
      forall k | 0 <= k < q ensures s[k] != '.' {
        assert s[..q][k] == s[k];
      }
      assert p == q;
    }
  }

  /** 10 to the power `n`. */
  function Pow10(n: nat): (r: nat)
    ensures r >= 1
  {
    if n == 0 then 1 else 10 * Pow10(n - 1)
  }

  /** `toDouble()` on text that matched the weight pattern, read exactly. */
  function DecimalValue(s: string): (v: real)
    requires MatchesWeight(s)
    ensures v >= 0.0
  {
    var p := PointIndex(s);
    if p == |s| then DigitsValue(s) as real
    else DigitsValue(s[..p]) as real + DigitsValue(s[p + 1..]) as real / Pow10(|s| - p - 1) as real
  }

  /** A string of `n` digits stands for less than 10 to the `n`. */
  lemma {:induction false} DigitsBelowPow10(s: string)
    requires AllDigits(s)
    ensures DigitsValue(s) < Pow10(|s|)
  {
    if s != [] {
      DigitsBelowPow10(s[..|s| - 1]);
    }
  }

  /**
   * A weight's whole part is the number before the point: the value lies between it
   * and the next integer. The text of a natural number reads back as that number.
   */
  lemma DecimalValueBounds(s: string)
    requires MatchesWeight(s)
    ensures AllDigits(s[..PointIndex(s)])
    ensures DigitsValue(s[..PointIndex(s)]) as real <= DecimalValue(s) < DigitsValue(s[..PointIndex(s)]) as real + 1.0
  {
    var p := PointIndex(s);
    if p == |s| {
      assert s[..p] == s;
    } else {
      var frac := s[p + 1..];
      DigitsBelowPow10(frac);
      FractionBelowOne(DigitsValue(frac), Pow10(|frac|));
    }
  }

  lemma FractionBelowOne(x: nat, d: nat)
    requires x < d
    ensures 0.0 <= x as real / d as real < 1.0
  {
    assert x as real / d as real * d as real == x as real;
  }

  /** The decimal text of a natural number is a valid weight and reads back as that number. */
  lemma NatTextWeight(n: nat)
    ensures MatchesWeight(NatText(n)) && DecimalValue(NatText(n)) == n as real
  {
    var s := NatText(n);
    assert PointIndex(s) == |s|;
    NatTextValue(n);
  }
}
