/**
 * Decimal text of natural numbers: what Python's `str(n)` / `int(s)` and JavaScript's
 * `BigInt.toString()` / `BigInt(s)` compute on ASCII digit strings.
 */
module Decimals {
  predicate IsDigit(c: char) {
    '0' <= c <= '9'
  }

  predicate AllDigits(s: string) {
    forall i :: 0 <= i < |s| ==> IsDigit(s[i])
  }

  function DigitValue(c: char): nat
    requires IsDigit(c)
  {
    c as int - '0' as int
  }

  function DigitChar(d: nat): (c: char)
    requires d < 10
    ensures IsDigit(c) && DigitValue(c) == d
  {
    ('0' as int + d) as char
  }

  /** int(s) on a digit string; the empty string counts as zero. */
  function Value(s: string): nat
    requires AllDigits(s)
  {
    if s == "" then 0 else 10 * Value(s[..|s| - 1]) + DigitValue(s[|s| - 1])
  }

  /** str(n): no leading zeros except for "0" itself. */
  function Text(n: nat): (s: string)
    ensures |s| > 0 && AllDigits(s)
    ensures Value(s) == n
    ensures s[0] == '0' ==> s == "0"
  {
    if n < 10 then [DigitChar(n)] else Text(n / 10) + [DigitChar(n % 10)]
  }

  function Zeros(n: nat): (s: string)
    ensures |s| == n && AllDigits(s)
    ensures forall i :: 0 <= i < n ==> s[i] == '0'
  {
    seq(n, i => '0')
  }

  function Pow10(n: nat): (p: nat)
    ensures p > 0
  {
    if n == 0 then 1 else 10 * Pow10(n - 1)
  }

  lemma {:induction false} TextInjective(m: nat, n: nat)
    ensures Text(m) == Text(n) <==> m == n
  {
    assert Value(Text(m)) == m && Value(Text(n)) == n;
  }

  /** Place value: writing `t` after `s` shifts `s` by |t| digits. */
  lemma {:induction false} ValueConcat(s: string, t: string)
    requires AllDigits(s) && AllDigits(t)
    ensures AllDigits(s + t) && Value(s + t) == Value(s) * Pow10(|t|) + Value(t)
    decreases |t|
  {
    if t == "" {
      assert s + t == s;
    } else {
      var front := t[..|t| - 1];
      assert (s + t)[..|s + t| - 1] == s + front;
      ValueConcat(s, front);
      Distribute(Value(s), Pow10(|front|), Value(front), DigitValue(t[|t| - 1]));
    }
  }

  lemma Distribute(v: int, p: int, f: int, d: int)
    ensures 10 * (v * p + f) + d == v * (10 * p) + (10 * f + d)
  {
  }

  lemma {:induction false} ValueOfZeros(n: nat)
    ensures Value(Zeros(n)) == 0
  {
    if n == 0 {
    } else {
      assert Zeros(n)[..n - 1] == Zeros(n - 1);
      ValueOfZeros(n - 1);
    }
  }

  /** Leading zeros do not change a value. */
  lemma ValueOfPadded(n: nat, s: string)
    requires AllDigits(s)
    ensures AllDigits(Zeros(n) + s) && Value(Zeros(n) + s) == Value(s)
  {
    ValueConcat(Zeros(n), s);
    ValueOfZeros(n);
  }

  /** A digit string is the text of its value exactly when it has no redundant leading zero. */
  lemma {:induction false} CanonicalDigits(s: string)
    requires AllDigits(s) && s != ""
    ensures Text(Value(s)) == s <==> (s[0] != '0' || s == "0")
    decreases |s|
  {
    if |s| == 1 {
    } else {
      var front := s[..|s| - 1];
      CanonicalDigits(front);
      var v, d := Value(front), DigitValue(s[|s| - 1]);
      assert Value(s) == 10 * v + d;
      if s[0] != '0' {
        LeadingDigitPositive(front);
        assert v > 0;
        assert (10 * v + d) / 10 == v && (10 * v + d) % 10 == d;
        assert Text(Value(s)) == Text(v) + [DigitChar(d)];
        assert s == front + [s[|s| - 1]];
        assert front[0] == s[0];
      }
    }
  }

  lemma {:induction false} LeadingDigitPositive(s: string)
    requires AllDigits(s) && s != "" && s[0] != '0'
    ensures Value(s) > 0
    decreases |s|
  {
    if |s| > 1 {
      LeadingDigitPositive(s[..|s| - 1]);
    }
  }
}
