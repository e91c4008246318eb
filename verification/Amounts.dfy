/**
 * Decimal amounts: the Python and the TypeScript parser and printer, and the laws that tie them
 * together. Strings are ASCII; the number of decimals is the asset's, and amounts are integers.
 */
module AmountText {
  import opened Decimals

  datatype Parsed = Amount(value: int) | Required | Invalid | TooManyDecimals

  predicate Ascii(s: string) {
    forall i :: 0 <= i < |s| ==> s[i] as int < 128
  }

  /** White space for JavaScript's trim() within ASCII. */
  predicate JsBlank(c: char) {
    c == ' ' || 9 <= c as int <= 13
  }

  /** White space for Python's str.strip() within ASCII: also the four information separators. */
  predicate PyBlank(c: char) {
    JsBlank(c) || 28 <= c as int <= 31
  }

  function TrimLeft(blank: char -> bool, s: string): (r: string)
    ensures r == "" || !blank(r[0])
  {
    if s != "" && blank(s[0]) then TrimLeft(blank, s[1..]) else s
  }

  function TrimRight(blank: char -> bool, s: string): (r: string)
    ensures r <= s && (r == "" || !blank(r[|r| - 1]))
  {
    if s != "" && blank(s[|s| - 1]) then TrimRight(blank, s[..|s| - 1]) else s
  }

  function Trim(blank: char -> bool, s: string): (r: string)
    ensures r == "" || (!blank(r[0]) && !blank(r[|r| - 1]))
  {
    TrimRight(blank, TrimLeft(blank, s))
  }

  /** The position of the first dot, or the length when there is none. */
  function Dot(s: string): (k: nat)
    ensures k <= |s| && (k < |s| ==> s[k] == '.')
    ensures forall i :: 0 <= i < k ==> s[i] != '.'
  {
    if s == "" || s[0] == '.' then 0 else
      var k := 1 + Dot(s[1..]);
      assert forall i :: 0 < i <= |s| - 1 ==> s[i] == s[1..][i - 1];
      k
  }

  function Whole(s: string): string {
    s[..Dot(s)]
  }

  function Frac(s: string): string {
    if Dot(s) == |s| then "" else s[Dot(s) + 1..]
  }

  function Dots(s: string): nat {
    if s == "" then 0 else (if s[0] == '.' then 1 else 0) + Dots(s[1..])
  }

  function Negative(s: string): bool {
    s != "" && s[0] == '-'
  }

  function Unsigned(s: string): string {
    if Negative(s) then s[1..] else s
  }

  function Abs(v: int): nat {
    if v < 0 then -v else v
  }

  function Signed(negative: bool, n: nat): int {
    if negative then 0 - n else n
  }

  /** digits.zfill(width), digits.padStart(width, "0"). */
  function PadStart(digits: string, width: nat): (r: string)
    requires AllDigits(digits)
    ensures AllDigits(r) && |r| == if |digits| < width then width else |digits|
  {
    if |digits| < width then Zeros(width - |digits|) + digits else digits
  }

  /** frac.ljust(width, "0"), frac.padEnd(width, "0"). */
  function PadEnd(digits: string, width: nat): (r: string)
    requires AllDigits(digits)
    ensures AllDigits(r) && |r| == if |digits| < width then width else |digits|
  {
    if |digits| < width then digits + Zeros(width - |digits|) else digits
  }

  /** Trailing zeros removed. */
  function DropZeros(digits: string): (r: string)
    requires AllDigits(digits)
    ensures r <= digits && (r == "" || r[|r| - 1] != '0')
    ensures PadEnd(r, |digits|) == digits
  {
    if digits != "" && digits[|digits| - 1] == '0' then
      var r := DropZeros(digits[..|digits| - 1]);
      assert Zeros(|digits| - |r|) == Zeros(|digits| - 1 - |r|) + "0";
      r
    else digits
  }
}

module PythonAmounts {
  import opened Wrappers
  import opened Decimals
  import opened AmountText

  function ParseAmount(decimals: nat, human: string): Parsed {
    var raw := Trim(PyBlank, human);
    if raw == "" then Required else
      var unsigned := Unsigned(raw);
      if unsigned == "" || unsigned == "." || Dots(unsigned) > 1 then Invalid else
        var whole, frac := Whole(unsigned), Frac(unsigned);
        if (whole != "" && !AllDigits(whole)) || (frac != "" && !AllDigits(frac)) then Invalid
        else if whole == "" && frac == "" then Invalid
        else if |frac| > decimals then TooManyDecimals
        else Amount(Signed(Negative(raw), Value((if whole == "" then "0" else whole) + PadEnd(frac, decimals))))
  }

  function FormatAmount(decimals: nat, value: int): string {
    var digits := Text(Abs(value));
    var formatted :=
      if decimals == 0 then digits
      else
        var padded := PadStart(digits, decimals + 1);
        var whole, frac := padded[..|padded| - decimals], DropZeros(padded[|padded| - decimals..]);
        if frac == "" then whole else whole + "." + frac;
    if value < 0 && formatted != "0" then "-" + formatted else formatted
  }

  /** The wire form of base units. */
  function BaseUnitsToInt(s: string): Option<int> {
    if s == "" then None else
      var digits := Unsigned(s);
      if digits == "" || !AllDigits(digits) then None else Some(Signed(Negative(s), Value(digits)))
  }
}

module TypeScriptAmounts {
  import opened Wrappers
  import opened Decimals
  import opened AmountText

  /** /^-?\d*(\.\d*)?$/ */
  predicate HumanRe(s: string) {
    exists k :: 0 <= k <= |Unsigned(s)| && DigitsDotDigits(Unsigned(s), k)
  }

  predicate DigitsDotDigits(s: string, k: nat)
    requires k <= |s|
  {
    AllDigits(s[..k]) && (k == |s| || (s[k] == '.' && AllDigits(s[k + 1..])))
  }

  /** /^-?(0|[1-9]\d*)$/ */
  predicate IntRe(s: string) {
    var digits := Unsigned(s);
    digits == "0" || (digits != "" && '1' <= digits[0] <= '9' && AllDigits(digits[1..]))
  }

  function ParseBaseUnit(s: string): Option<int> {
    if !IntRe(s) then None else
      assert forall i :: 0 < i < |Unsigned(s)| ==> Unsigned(s)[i] == Unsigned(s)[1..][i - 1];
      Some(Signed(Negative(s), Value(Unsigned(s))))
  }

  function ParseAmount(decimals: nat, human: string): Parsed {
    var s := Trim(JsBlank, human);
    if s == "" || s == "-" || s == "." || s == "-." || !HumanRe(s) then Invalid else
      var whole, frac := Whole(Unsigned(s)), Frac(Unsigned(s));
      HumanParts(s);
      if |frac| > decimals then TooManyDecimals
      else Amount(Signed(Negative(s), Value((if whole == "" then "0" else whole) + PadEnd(frac, decimals))))
  }

  lemma HumanParts(s: string)
    ensures HumanRe(s) <==> AllDigits(Whole(Unsigned(s))) && AllDigits(Frac(Unsigned(s)))
  {
    var b := Unsigned(s);
    var dot := Dot(b);
    if HumanRe(s) {
      var k :| 0 <= k <= |b| && DigitsDotDigits(b, k);
      assert forall i :: 0 <= i < k ==> IsDigit(b[..k][i]) && b[i] == b[..k][i];
      assert k == dot;
    }
    if AllDigits(Whole(b)) && AllDigits(Frac(b)) {
      assert DigitsDotDigits(b, dot);
    }
  }

  function FormatAmount(decimals: nat, value: int): string {
    var digits := PadStart(Text(Abs(value)), decimals + 1);
    var whole := digits[..|digits| - decimals];
    var frac := DropZeros(if decimals > 0 then digits[|digits| - decimals..] else "");
    var out := if frac != "" then whole + "." + frac else whole;
    if value < 0 && out != "0" then "-" + out else out
  }
}

/** The laws. */
module Amounts {
  import opened Wrappers
  import opened Decimals
  import opened AmountText
  import Py = PythonAmounts
  import Ts = TypeScriptAmounts

  // ---- digit strings ------------------------------------------------------------------------

  lemma {:induction false} SameLengthSameValue(s: string, t: string)
    requires AllDigits(s) && AllDigits(t) && |s| == |t| && Value(s) == Value(t)
    ensures s == t
    decreases |s|
  {
    if s == "" {
    } else {
      var n := |s| - 1;
      assert DigitValue(s[n]) == DigitValue(t[n]);
      SameLengthSameValue(s[..n], t[..n]);
      assert s == s[..n] + [s[n]] && t == t[..n] + [t[n]];
    }
  }

  lemma {:induction false} ValueBound(s: string)
    requires AllDigits(s)
    ensures Value(s) < Pow10(|s|)
    decreases |s|
  {
    if s == "" {
    } else {
      ValueBound(s[..|s| - 1]);
    }
  }

  lemma {:induction false} TextLength(n: nat, k: nat)
    requires k >= 1 && n < Pow10(k)
    ensures |Text(n)| <= k
  {
    if n >= 10 {
      assert Pow10(1) == 10;
      assert k > 1;
      TextLength(n / 10, k - 1);
    }
  }

  lemma PaddedValue(digits: string, width: nat)
    requires AllDigits(digits)
    ensures Value(PadStart(digits, width)) == Value(digits)
  {
    hide Value, Text;
    if |digits| < width {
      ValueOfPadded(width - |digits|, digits);
    }
  }

  /** Digits with no redundant zero before the last `decimals` of them are the padded text of their value. */
  lemma PaddedText(whole: string, frac: string)
    requires AllDigits(whole) && AllDigits(frac) && whole != "" && (whole[0] == '0' ==> whole == "0")
    ensures AllDigits(whole + frac) && PadStart(Text(Value(whole + frac)), |frac| + 1) == whole + frac
  {
    if whole[0] == '0' && frac != "" {
      PaddedFraction(frac);
    } else {
      assert frac == "" ==> whole + frac == whole;
      CanonicalDigits(whole + frac);
    }
  }

  lemma PaddedFraction(frac: string)
    requires AllDigits(frac) && frac != ""
    ensures AllDigits("0" + frac) && PadStart(Text(Value("0" + frac)), |frac| + 1) == "0" + frac
  {
    assert Zeros(1) == "0";
    ValueOfPadded(1, frac);
    ValueBound(frac);
    var n := Value("0" + frac);
    TextLength(n, |frac|);
    PaddedValue(Text(n), |frac| + 1);
    SameLengthSameValue(PadStart(Text(n), |frac| + 1), "0" + frac);
  }

  // ---- the printed form ---------------------------------------------------------------------

  /** The text of an amount: no redundant zeros, no bare dot, no negative zero. */
  predicate Canonical(decimals: nat, s: string) {
    var b := Unsigned(s);
    && CanonicalBody(decimals, Whole(b), Frac(b))
    && (Dot(b) < |b| ==> Frac(b) != "")
    && (Negative(s) ==> b != "0")
  }

  predicate CanonicalBody(decimals: nat, whole: string, frac: string) {
    && AllDigits(whole) && whole != "" && (whole[0] == '0' ==> whole == "0")
    && AllDigits(frac) && |frac| <= decimals && (frac != "" ==> frac[|frac| - 1] != '0')
  }

  function Body(whole: string, frac: string): string {
    if frac == "" then whole else whole + "." + frac
  }

  lemma BodyParts(whole: string, frac: string)
    requires AllDigits(whole) && AllDigits(frac)
    ensures Whole(Body(whole, frac)) == whole && Frac(Body(whole, frac)) == frac
    ensures Dot(Body(whole, frac)) == |whole|
  {
    var b := Body(whole, frac);
    assert forall i :: 0 <= i < |whole| ==> b[i] == whole[i] && b[i] != '.';
    assert b[..|whole|] == whole;
    if frac != "" {
      assert b[|whole|] == '.';
      assert b[|whole| + 1..] == frac;
    }
  }

  lemma SplitAt(b: string, k: nat)
    requires k < |b| && b[k] == '.'
    ensures b == b[..k] + "." + b[k + 1..]
  {
  }

  lemma BodyOf(b: string)
    requires Dot(b) < |b| ==> Frac(b) != ""
    ensures b == Body(Whole(b), Frac(b))
  {
    var k := Dot(b);
    if k < |b| {
      SplitAt(b, k);
    } else {
      assert b[..k] == b;
    }
  }

  /** The two printed parts of the padded digits. */
  function WholeDigits(decimals: nat, v: int): (whole: string)
    ensures AllDigits(whole) && whole != ""
  {
    var padded := PadStart(Text(Abs(v)), decimals + 1);
    padded[..|padded| - decimals]
  }

  function FracDigits(decimals: nat, v: int): (full: string)
    ensures AllDigits(full) && |full| == decimals
    ensures WholeDigits(decimals, v) + full == PadStart(Text(Abs(v)), decimals + 1)
  {
    var padded := PadStart(Text(Abs(v)), decimals + 1);
    padded[|padded| - decimals..]
  }

  lemma PartsValue(decimals: nat, v: int)
    ensures Value(WholeDigits(decimals, v) + FracDigits(decimals, v)) == Abs(v)
  {
    PaddedValue(Text(Abs(v)), decimals + 1);
  }

  lemma WholeCanonical(decimals: nat, v: int)
    ensures WholeDigits(decimals, v)[0] == '0' ==> WholeDigits(decimals, v) == "0"
  {
    var digits := Text(Abs(v));
    var padded := PadStart(digits, decimals + 1);
    if |digits| <= decimals + 1 {
      assert |WholeDigits(decimals, v)| == 1;
    } else {
      assert padded[0] == digits[0] && |digits| > 1;
      assert WholeDigits(decimals, v)[0] == padded[0];
    }
  }

  /** Zero is the only amount whose body is "0". */
  lemma ZeroBody(decimals: nat, v: int)
    requires Body(WholeDigits(decimals, v), DropZeros(FracDigits(decimals, v))) == "0"
    ensures v == 0
  {
    var whole, full := WholeDigits(decimals, v), FracDigits(decimals, v);
    BodyIsZero(whole, DropZeros(full));
    AllZeros(full);
    ValueOfPadded(1, full);
    assert Zeros(1) == "0";
    PartsValue(decimals, v);
  }

  lemma BodyIsZero(whole: string, frac: string)
    requires whole != "" && Body(whole, frac) == "0"
    ensures whole == "0" && frac == ""
  {
  }

  lemma AllZeros(full: string)
    requires AllDigits(full) && DropZeros(full) == ""
    ensures Value(full) == 0
  {
    assert PadEnd("", |full|) == full;
    assert "" + Zeros(|full|) == Zeros(|full|);
    ValueOfZeros(|full|);
  }

  /** Both printers put the sign before the canonical body of the padded digits. */
  lemma FormatShape(decimals: nat, v: int)
    ensures Py.FormatAmount(decimals, v) == Printed(v < 0, WholeDigits(decimals, v), DropZeros(FracDigits(decimals, v)))
    ensures Ts.FormatAmount(decimals, v) == Py.FormatAmount(decimals, v)
  {
    var whole, full := WholeDigits(decimals, v), FracDigits(decimals, v);
    if decimals == 0 {
      assert full == "" && whole + full == whole;
    }
    if v < 0 && Body(whole, DropZeros(full)) == "0" {
      ZeroBody(decimals, v);
    }
  }

  function Printed(negative: bool, whole: string, frac: string): string {
    if negative then "-" + Body(whole, frac) else Body(whole, frac)
  }

  lemma PrintedParts(negative: bool, whole: string, frac: string)
    requires AllDigits(whole) && AllDigits(frac) && whole != ""
    ensures var s := Printed(negative, whole, frac);
            && Negative(s) == negative && Unsigned(s) == Body(whole, frac)
            && Whole(Unsigned(s)) == whole && Frac(Unsigned(s)) == frac
            && (frac == "" ==> Dot(Unsigned(s)) == |Unsigned(s)|)
  {
    BodyParts(whole, frac);
    assert Body(whole, frac)[0] == whole[0];
  }

  lemma TrimNoop(blank: char -> bool, s: string)
    requires s != "" ==> !blank(s[0]) && !blank(s[|s| - 1])
    ensures Trim(blank, s) == s
  {
  }

  lemma {:induction false} DotsOfParts(b: string)
    ensures Dots(b) <= 1 <==> '.' !in Frac(b)
    decreases |b|
  {
    if b == "" {
    } else if b[0] == '.' {
      assert Frac(b) == b[1..];
      NoDots(b[1..]);
    } else {
      DotsOfParts(b[1..]);
      assert Frac(b) == Frac(b[1..]);
    }
  }

  lemma {:induction false} NoDots(s: string)
    ensures Dots(s) == 0 <==> '.' !in s
    decreases |s|
  {
    if s == "" {
    } else {
      NoDots(s[1..]);
      assert s == [s[0]] + s[1..];
    }
  }

  /** The digits a parser reads. */
  function Reading(decimals: nat, whole: string, frac: string): (r: string)
    requires AllDigits(whole) && AllDigits(frac)
    ensures AllDigits(r)
  {
    (if whole == "" then "0" else whole) + PadEnd(frac, decimals)
  }

  predicate Readable(decimals: nat, whole: string, frac: string) {
    AllDigits(whole) && AllDigits(frac) && (whole != "" || frac != "") && |frac| <= decimals
  }

  /** What Python's parser makes of a trimmed text. */
  lemma PyParses(decimals: nat, s: string)
    requires s != "" && Trim(PyBlank, s) == s
    requires Readable(decimals, Whole(Unsigned(s)), Frac(Unsigned(s)))
    ensures Py.ParseAmount(decimals, s)
      == Amount(Signed(Negative(s), Value(Reading(decimals, Whole(Unsigned(s)), Frac(Unsigned(s))))))
  {
    DotsOfParts(Unsigned(s));
  }

  lemma PrintedIsCanonical(decimals: nat, v: int)
    ensures Canonical(decimals, Py.FormatAmount(decimals, v))
  {
    var whole, frac := WholeDigits(decimals, v), DropZeros(FracDigits(decimals, v));
    FormatShape(decimals, v);
    WholeCanonical(decimals, v);
    PrintedParts(v < 0, whole, frac);
    if v < 0 && Body(whole, frac) == "0" {
      ZeroBody(decimals, v);
    }
  }

  lemma PrintedParses(decimals: nat, negative: bool, whole: string, frac: string)
    requires CanonicalBody(decimals, whole, frac)
    ensures Py.ParseAmount(decimals, Printed(negative, whole, frac))
      == Ts.ParseAmount(decimals, Printed(negative, whole, frac))
      == Amount(Signed(negative, Value(Reading(decimals, whole, frac))))
  {
    var s := Printed(negative, whole, frac);
    PrintedParts(negative, whole, frac);
    CanonicalEnds(decimals, s);
    PyParses(decimals, s);
    AgreeOnTrimmed(decimals, s);
  }

  /**
   * Round trip: parsing what the printer prints gives the amount back, for every amount and every
   * number of decimals, in both languages.
   */
  lemma ParseFormat(decimals: nat, v: int)
    ensures Py.ParseAmount(decimals, Py.FormatAmount(decimals, v)) == Amount(v)
    ensures Ts.ParseAmount(decimals, Ts.FormatAmount(decimals, v)) == Amount(v)
  {
    hide Py.ParseAmount, Ts.ParseAmount, Text, Value, PadStart, DropZeros;
    WholeCanonical(decimals, v);
    PartsValue(decimals, v);
    PrintedParses(decimals, v < 0, WholeDigits(decimals, v), DropZeros(FracDigits(decimals, v)));
    FormatShape(decimals, v);
  }

  lemma CanonicalEnds(decimals: nat, s: string)
    requires var b := Unsigned(s); CanonicalBody(decimals, Whole(b), Frac(b)) && (Dot(b) < |b| ==> Frac(b) != "")
    ensures s != "" && Trim(PyBlank, s) == s && Trim(JsBlank, s) == s
  {
    var b := Unsigned(s);
    BodyOf(b);
    assert b[0] == Whole(b)[0];
    assert IsDigit(b[|b| - 1]) by {
      if Frac(b) != "" {
        assert b[|b| - 1] == Frac(b)[|Frac(b)| - 1];
      }
    }
    TrimNoop(PyBlank, s);
    TrimNoop(JsBlank, s);
  }

  /** The printed texts are exactly the canonical ones: each amount has one canonical text, the printed one. */
  lemma CanonicalIsPrinted(decimals: nat, s: string, v: int)
    ensures Canonical(decimals, s) && Py.ParseAmount(decimals, s) == Amount(v) <==> s == Py.FormatAmount(decimals, v)
  {
    hide Py.ParseAmount, Py.FormatAmount, Canonical;
    ParseFormat(decimals, v);
    PrintedIsCanonical(decimals, v);
    if Canonical(decimals, s) && Py.ParseAmount(decimals, s) == Amount(v) {
      CanonicalReads(decimals, s);
      var b := Unsigned(s);
      PrintedUnique(decimals, Negative(s), Whole(b), Frac(b), v);
    }
  }

  /** A canonical text is its own printed form, and reads as its digits say. */
  lemma CanonicalReads(decimals: nat, s: string)
    requires Canonical(decimals, s)
    ensures var b := Unsigned(s);
      && CanonicalBody(decimals, Whole(b), Frac(b)) && (Negative(s) ==> Body(Whole(b), Frac(b)) != "0")
      && s == Printed(Negative(s), Whole(b), Frac(b))
      && Py.ParseAmount(decimals, s) == Amount(Signed(Negative(s), Value(Reading(decimals, Whole(b), Frac(b)))))
  {
    hide Py.ParseAmount, Ts.ParseAmount, CanonicalBody, Value, PadEnd;
    var b := Unsigned(s);
    BodyOf(b);
    ReadableBody(decimals, Whole(b), Frac(b));
    PrintedParses(decimals, Negative(s), Whole(b), Frac(b));
  }

  lemma ReadableBody(decimals: nat, whole: string, frac: string)
    requires CanonicalBody(decimals, whole, frac)
    ensures Readable(decimals, whole, frac)
  {
  }

  lemma PrintedUnique(decimals: nat, negative: bool, whole: string, frac: string, v: int)
    requires CanonicalBody(decimals, whole, frac) && (negative ==> Body(whole, frac) != "0")
    requires v == Signed(negative, Value(Reading(decimals, whole, frac)))
    ensures Printed(negative, whole, frac) == Py.FormatAmount(decimals, v)
  {
    if v == 0 {
      ZeroParts(decimals, whole, frac);
    }
    CanonicalDigitsPrinted(decimals, whole, frac, v);
    FormatShape(decimals, v);
  }

  lemma ZeroParts(decimals: nat, whole: string, frac: string)
    requires CanonicalBody(decimals, whole, frac) && Value(Reading(decimals, whole, frac)) == 0
    ensures Body(whole, frac) == "0"
  {
    hide Text, PadStart, PadEnd, DropZeros, WholeDigits, FracDigits, Value;
    CanonicalDigitsPrinted(decimals, whole, frac, 0);
    ZeroReading(decimals);
    CanonicalDigitsPrinted(decimals, "0", "", 0);
  }

  lemma ZeroReading(decimals: nat)
    ensures Value(Reading(decimals, "0", "")) == 0
  {
    hide Value;
    assert Reading(decimals, "0", "") == Zeros(decimals + 1);
    ValueOfZeros(decimals + 1);
  }

  lemma CanonicalDigitsPrinted(decimals: nat, whole: string, frac: string, v: int)
    requires CanonicalBody(decimals, whole, frac) && Value(Reading(decimals, whole, frac)) == Abs(v)
    ensures WholeDigits(decimals, v) == whole && DropZeros(FracDigits(decimals, v)) == frac
  {
    hide Value, Text, DropZeros;
    PaddedText(whole, PadEnd(frac, decimals));
    DropPadded(frac, decimals);
  }

  /** Removing the zeros that padding added. */
  lemma {:induction false} DropPadded(frac: string, width: nat)
    requires AllDigits(frac) && |frac| <= width && (frac != "" ==> frac[|frac| - 1] != '0')
    ensures DropZeros(PadEnd(frac, width)) == frac
    decreases width
  {
    if |frac| < width {
      assert PadEnd(frac, width)[..width - 1] == PadEnd(frac, width - 1);
      DropPadded(frac, width - 1);
    }
  }

  /** Printing what was parsed is canonical, and doing it again changes nothing. */
  lemma FormatParseIdempotent(decimals: nat, s: string, v: int)
    requires Py.ParseAmount(decimals, s) == Amount(v)
    ensures Canonical(decimals, Py.FormatAmount(decimals, v))
    ensures Py.ParseAmount(decimals, Py.FormatAmount(decimals, v)) == Amount(v)
    ensures Canonical(decimals, s) <==> s == Py.FormatAmount(decimals, v)
  {
    ParseFormat(decimals, v);
    PrintedIsCanonical(decimals, v);
    CanonicalIsPrinted(decimals, s, v);
  }

  /** The magnitude a text stands for, in base units: whole * 10^decimals + frac * 10^(decimals - |frac|). */
  function Scaled(decimals: nat, whole: string, frac: string): nat
    requires AllDigits(whole) && AllDigits(frac) && |frac| <= decimals
  {
    Value(whole) * Pow10(decimals) + Value(frac) * Pow10(decimals - |frac|)
  }

  lemma ReadingScaled(decimals: nat, whole: string, frac: string)
    requires AllDigits(whole) && AllDigits(frac) && |frac| <= decimals
    ensures Value(Reading(decimals, whole, frac)) == Scaled(decimals, whole, frac)
  {
    var whole' := if whole == "" then "0" else whole;
    assert Value("0") == 10 * Value("") + 0;
    ValueConcat(whole', PadEnd(frac, decimals));
    if |frac| < decimals {
      ValueConcat(frac, Zeros(decimals - |frac|));
      ValueOfZeros(decimals - |frac|);
    }
  }

  /** What a text must look like to be accepted, and the value it is accepted with. */
  predicate Reads(decimals: nat, raw: string, v: int) {
    && raw != "" && Readable(decimals, Whole(Unsigned(raw)), Frac(Unsigned(raw)))
    && v == Signed(Negative(raw), Scaled(decimals, Whole(Unsigned(raw)), Frac(Unsigned(raw))))
  }

  /** The parser accepts exactly the decimal texts with few enough decimals, as their scaled value. */
  lemma ParsedValue(decimals: nat, s: string, v: int)
    ensures Py.ParseAmount(decimals, s) == Amount(v) <==> Reads(decimals, Trim(PyBlank, s), v)
  {
    hide Trim, Scaled, Value, PadEnd, Dot, Dots;
    var raw := Trim(PyBlank, s);
    if Py.ParseAmount(decimals, s).Amount? || Reads(decimals, raw, v) {
      ReadingScaled(decimals, Whole(Unsigned(raw)), Frac(Unsigned(raw)));
      DotsOfParts(Unsigned(raw));
    }
  }

  // ---- the two languages --------------------------------------------------------------------

  /** The two printers print the same text. */
  lemma PrintersAgree(decimals: nat, v: int)
    ensures Ts.FormatAmount(decimals, v) == Py.FormatAmount(decimals, v)
  {
    FormatShape(decimals, v);
  }

  lemma AgreeOnTrimmed(decimals: nat, s: string)
    requires Trim(PyBlank, s) == s
    ensures Trim(JsBlank, s) == s
    ensures if s == "" then Py.ParseAmount(decimals, s).Required? && Ts.ParseAmount(decimals, s).Invalid?
            else Py.ParseAmount(decimals, s) == Ts.ParseAmount(decimals, s)
  {
    TrimNoop(JsBlank, s);
    Ts.HumanParts(s);
    DotsOfParts(Unsigned(s));
  }

  lemma {:induction false} TrimLeftOnce(s: string)
    ensures TrimLeft(PyBlank, TrimLeft(JsBlank, s)) == TrimLeft(PyBlank, s)
    decreases |s|
  {
    if s != "" && JsBlank(s[0]) {
      TrimLeftOnce(s[1..]);
    }
  }

  lemma {:induction false} TrimRightOnce(s: string)
    ensures TrimRight(PyBlank, TrimRight(JsBlank, s)) == TrimRight(PyBlank, s)
    decreases |s|
  {
    if s != "" && JsBlank(s[|s| - 1]) {
      TrimRightOnce(s[..|s| - 1]);
    }
  }

  /** An information separator left at an end of the text that JavaScript trimmed. */
  predicate SeparatorAtEnd(s: string) {
    var t := Trim(JsBlank, s);
    t != "" && (PyBlank(t[0]) || PyBlank(t[|t| - 1]))
  }

  lemma NoSeparatorSameTrim(s: string)
    ensures !SeparatorAtEnd(s) ==> Trim(PyBlank, s) == Trim(JsBlank, s)
  {
    if !SeparatorAtEnd(s) {
      var l := TrimLeft(JsBlank, s);
      TrimLeftOnce(s);
      if Trim(JsBlank, s) == "" {
        AllBlank(l);
      } else {
        assert Trim(JsBlank, s)[0] == l[0];
        assert TrimLeft(PyBlank, l) == l;
      }
      TrimRightOnce(l);
    }
  }

  lemma {:induction false} AllBlank(l: string)
    requires TrimRight(JsBlank, l) == "" && (l == "" || !JsBlank(l[0]))
    ensures l == ""
    decreases |l|
  {
    if |l| > 1 {
      assert l[..|l| - 1][0] == l[0];
      AllBlank(l[..|l| - 1]);
    }
  }

  /** An optional minus sign and a decimal with few enough decimals. */
  predicate Decimal(decimals: nat, raw: string) {
    raw != "" && Readable(decimals, Whole(Unsigned(raw)), Frac(Unsigned(raw)))
  }

  /**
   * Agreement: on ASCII text the two parsers accept the same strings with the same amount, exactly
   * unless the text has one of Python's four extra white-space characters at an end and is a decimal
   * once those are trimmed too.
   */
  lemma ParsersAgree(decimals: nat, s: string)
    requires Ascii(s)
    ensures (forall v :: Ts.ParseAmount(decimals, s) == Amount(v) <==> Py.ParseAmount(decimals, s) == Amount(v))
      <==> !(SeparatorAtEnd(s) && Decimal(decimals, Trim(PyBlank, s)))
  {
    hide Py.ParseAmount, Ts.ParseAmount, Trim;
    AcceptedExactly(decimals, s);
    if SeparatorAtEnd(s) {
      SeparatorRejected(decimals, s);
      if Py.ParseAmount(decimals, s).Amount? {
        var v := Py.ParseAmount(decimals, s).value;
        assert Py.ParseAmount(decimals, s) == Amount(v) && Ts.ParseAmount(decimals, s) != Amount(v);
      }
    } else {
      NoSeparatorSameTrim(s);
      ParsesTrimmed(decimals, s);
      AgreeOnTrimmed(decimals, Trim(PyBlank, s));
    }
  }

  lemma AcceptedExactly(decimals: nat, s: string)
    ensures Py.ParseAmount(decimals, s).Amount? <==> Decimal(decimals, Trim(PyBlank, s))
  {
    hide Py.ParseAmount, Trim;
    var raw := Trim(PyBlank, s);
    if Py.ParseAmount(decimals, s).Amount? {
      ParsedValue(decimals, s, Py.ParseAmount(decimals, s).value);
    } else if Decimal(decimals, raw) {
      ParsedValue(decimals, s, Signed(Negative(raw), Scaled(decimals, Whole(Unsigned(raw)), Frac(Unsigned(raw)))));
    }
  }

  /** Both parsers look at the trimmed text only. */
  lemma ParsesTrimmed(decimals: nat, s: string)
    ensures Trim(PyBlank, Trim(PyBlank, s)) == Trim(PyBlank, s)
    ensures Py.ParseAmount(decimals, s) == Py.ParseAmount(decimals, Trim(PyBlank, s))
    ensures Ts.ParseAmount(decimals, s) == Ts.ParseAmount(decimals, Trim(JsBlank, s))
  {
    TrimTwice(PyBlank, s);
    TrimTwice(JsBlank, s);
    hide Trim, Dot, Dots, Value, PadEnd, Ts.DigitsDotDigits;
  }

  lemma TrimTwice(blank: char -> bool, s: string)
    ensures Trim(blank, Trim(blank, s)) == Trim(blank, s)
  {
    TrimNoop(blank, Trim(blank, s));
  }

  lemma SeparatorRejected(decimals: nat, s: string)
    requires SeparatorAtEnd(s)
    ensures Ts.ParseAmount(decimals, s) == Invalid
  {
    var t := Trim(JsBlank, s);
    Ts.HumanParts(t);
    var b := Unsigned(t);
    if AllDigits(Whole(b)) && AllDigits(Frac(b)) {
      assert forall i :: 0 <= i < |b| ==> IsDigit(b[i]) || b[i] == '.' by {
        forall i | 0 <= i < |b|
          ensures IsDigit(b[i]) || b[i] == '.'
        {
          if i < Dot(b) {
            assert b[i] == Whole(b)[i];
          } else if i > Dot(b) {
            assert b[i] == Frac(b)[i - Dot(b) - 1];
          }
        }
      }
      assert false;
    }
  }

  /** The separator case is real: Python reads an amount where TypeScript reports an error. */
  lemma SeparatorExample()
    ensures var s := [31 as char, '7'];
            Ascii(s) && Py.ParseAmount(0, s) == Amount(7) && Ts.ParseAmount(0, s) == Invalid
  {
    var s := [31 as char, '7'];
    assert s[1..] == "7";
    assert TrimLeft(PyBlank, s) == TrimLeft(PyBlank, "7") == "7";
    TrimNoop(PyBlank, "7");
    assert Trim(JsBlank, s) == s;
    SeparatorRejected(0, s);
    assert Body("7", "") == "7";
    BodyParts("7", "");
    PyParses(0, "7");
    assert "7" + PadEnd("", 0) == "7";
    assert Value("7") == 10 * Value("") + 7;
  }

  predicate RedundantZero(s: string) {
    var digits := Unsigned(s);
    |digits| > 1 && digits[0] == '0'
  }

  /**
   * Wire integers: TypeScript accepts exactly what Python accepts without a redundant leading zero, as
   * the same integer.
   */
  lemma WireFormsDiffer(s: string, v: int)
    ensures Ts.ParseBaseUnit(s) == Some(v) <==> Py.BaseUnitsToInt(s) == Some(v) && !RedundantZero(s)
  {
    var digits := Unsigned(s);
    if Ts.IntRe(s) && digits != "0" {
      assert digits == [digits[0]] + digits[1..];
      assert AllDigits(digits);
    }
    if digits != "" && AllDigits(digits) && digits[0] != '0' {
      assert AllDigits(digits[1..]);
    }
  }

  /** The zero case is real: an integer for Python, an error for TypeScript. */
  lemma RedundantZeroExample()
    ensures Py.BaseUnitsToInt("007") == Some(7) && Ts.ParseBaseUnit("007") == None
  {
    ValueOfPadded(2, "7");
    assert Zeros(2) + "7" == "007";
    assert Value("7") == 10 * Value("") + 7;
    WireFormsDiffer("007", 7);
  }

  /** A wire integer other than "-0" is accepted by TypeScript exactly when it is the text of its value. */
  lemma WireRoundTrip(s: string, v: int)
    ensures Ts.ParseBaseUnit(s) == Some(v) && s != "-0" <==> s == (if v < 0 then "-" else "") + Text(Abs(v))
  {
    var digits := Unsigned(s);
    WireFormsDiffer(s, v);
    if Ts.ParseBaseUnit(s) == Some(v) && s != "-0" {
      CanonicalDigits(digits);
      assert s == (if Negative(s) then "-" else "") + digits;
      if digits[0] != '0' {
        LeadingDigitPositive(digits);
      }
    }
    if s == (if v < 0 then "-" else "") + Text(Abs(v)) {
      assert digits == Text(Abs(v));
      CanonicalDigits(digits);
    }
  }
}
