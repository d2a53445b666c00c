/**
 * Decimal rendering of natural numbers (what Python's f"{n}" and str(n) produce
 * for a non-negative int), the inverse parsing used to state round trips, and
 * ASCII lower-casing.
 */
module Text {
  import opened Wrappers

  predicate IsDigit(c: char) {
    '0' <= c <= '9'
  }

  predicate AllDigits(s: string) {
    forall i :: 0 <= i < |s| ==> IsDigit(s[i])
  }

  function DigitValue(c: char): (d: nat)
    requires IsDigit(c)
    ensures d < 10
  {
    c as int - '0' as int
  }

  function DigitChar(d: nat): (c: char)
    requires d < 10
    ensures IsDigit(c) && DigitValue(c) == d
  {
    ('0' as int + d) as char
  }

  /** The shortest decimal numeral of n: no sign, no leading zeros. */
  function NatText(n: nat): (r: string)
    ensures |r| >= 1 && AllDigits(r)
  {
    if n < 10 then [DigitChar(n)] else NatText(n / 10) + [DigitChar(n % 10)]
  }

  /** The numeral has no leading zero, so every number has exactly one rendering. */
  lemma {:induction false} NatTextNoLeadingZero(n: nat)
    ensures |NatText(n)| > 1 ==> NatText(n)[0] != '0'
    ensures n > 0 ==> NatText(n)[0] != '0'
  {
    if n >= 10 {
      NatTextNoLeadingZero(n / 10);
    }
  }

  /** The number a string of decimal digits denotes. */
  function DigitsValue(s: string): nat
    requires AllDigits(s)
  {
    if s == [] then 0 else DigitsValue(s[..|s| - 1]) * 10 + DigitValue(s[|s| - 1])
  }

  lemma {:induction false} NatTextRoundTrip(n: nat)
    ensures DigitsValue(NatText(n)) == n
  {
    if n >= 10 {
      var t := NatText(n);
      assert t[..|t| - 1] == NatText(n / 10);
      NatTextRoundTrip(n / 10);
    }
  }

  lemma NatTextInjective(m: nat, n: nat)
    ensures NatText(m) == NatText(n) ==> m == n
  {
    NatTextRoundTrip(m);
    NatTextRoundTrip(n);
  }

  /** Appending two digits multiplies the value of the prefix by one hundred. */
  lemma DigitsValueTwoMore(s: string, x: char, y: char)
    requires AllDigits(s) && IsDigit(x) && IsDigit(y)
    ensures AllDigits(s + [x, y])
    ensures DigitsValue(s + [x, y]) == DigitsValue(s) * 100 + DigitValue(x) * 10 + DigitValue(y)
  {
    var t := s + [x, y];
    assert t[..|t| - 1] == s + [x];
    assert (s + [x])[..|s|] == s;
  }

  /** The length of the run of digits at the front of s. */
  function LeadingDigits(s: string): (k: nat)
    ensures k <= |s|
  {
    if s == [] || !IsDigit(s[0]) then 0 else 1 + LeadingDigits(s[1..])
  }

  /** The run is all digits and is not followed by one. */
  lemma {:induction false} LeadingDigitsRun(s: string)
    ensures AllDigits(s[..LeadingDigits(s)])
    ensures LeadingDigits(s) < |s| ==> !IsDigit(s[LeadingDigits(s)])
  {
    if s != [] && IsDigit(s[0]) {
      LeadingDigitsRun(s[1..]);
      var k := LeadingDigits(s);
      assert s[..k] == [s[0]] + s[1..][..k - 1];
    }
  }

  lemma {:induction false} LeadingDigitsOfRun(d: string, rest: string)
    requires AllDigits(d)
    requires rest == [] || !IsDigit(rest[0])
    ensures LeadingDigits(d + rest) == |d|
  {
    if d == [] {
      assert d + rest == rest;
    } else {
      assert (d + rest)[1..] == d[1..] + rest;
      LeadingDigitsOfRun(d[1..], rest);
    }
  }

  /**
   * Reads "<digits><unit>" at the front of s: the number and what follows
   * the unit character.
   */
  function ParseField(s: string, unit: char): (r: Option<(nat, string)>)
    ensures r.Some? ==> |r.value.1| < |s|
  {
    var k := LeadingDigits(s);
    LeadingDigitsRun(s);
    if 0 < k < |s| && s[k] == unit then Some((DigitsValue(s[..k]), s[k + 1..])) else None
  }

  lemma ParseFieldOfText(n: nat, unit: char, rest: string)
    requires !IsDigit(unit)
    ensures ParseField(NatText(n) + [unit] + rest, unit) == Some((n, rest))
  {
    var t := NatText(n);
    var s := t + [unit] + rest;
    assert s == t + ([unit] + rest);
    LeadingDigitsOfRun(t, [unit] + rest);
    assert s[..|t|] == t;
    assert s[|t| + 1..] == rest;
    NatTextRoundTrip(n);
  }

  /** A field for a different unit is not read. */
  lemma ParseFieldOtherUnit(n: nat, unit: char, other: char, rest: string)
    requires !IsDigit(unit) && unit != other
    ensures ParseField(NatText(n) + [unit] + rest, other).None?
  {
    var t := NatText(n);
    assert t + [unit] + rest == t + ([unit] + rest);
    LeadingDigitsOfRun(t, [unit] + rest);
  }

  /** ASCII lower-casing of one character. */
  function LowerChar(c: char): (r: char)
    ensures !('A' <= r <= 'Z')
    ensures !('A' <= c <= 'Z') ==> r == c
    ensures 'A' <= c <= 'Z' ==> r as int - 'a' as int == c as int - 'A' as int
  {
    if 'A' <= c <= 'Z' then (c as int - 'A' as int + 'a' as int) as char else c
  }

  function Lower(s: string): (r: string)
    ensures |r| == |s|
    ensures forall i :: 0 <= i < |s| ==> r[i] == LowerChar(s[i])
  {
    if s == [] then [] else [LowerChar(s[0])] + Lower(s[1..])
  }

  lemma LowerIdempotent(s: string)
    ensures Lower(Lower(s)) == Lower(s)
  {
  }
}
