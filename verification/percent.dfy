/**
 * Parsing of the locale-formatted percentage cells of the indicator table
 * ("12,3%", "1.234,5%"): strip '%' from both ends, delete every '.', turn
 * ',' into '.', then read the result as a decimal number. Numbers are exact
 * reals here, not binary floating point.
 */
module Percent {
  import opened Wrappers
  import Seqs

  predicate IsDigit(c: char) {
    '0' <= c <= '9'
  }

  predicate AllDigits(s: string) {
    forall i :: 0 <= i < |s| ==> IsDigit(s[i])
  }

  function DigitValue(c: char): nat
    requires IsDigit(c)
  {
    (c as int) - ('0' as int)
  }

  /** The whole number written by a string of decimal digits. */
  function DigitsValue(s: string): nat
    requires AllDigits(s)
    decreases |s|
  {
    if s == [] then 0 else DigitsValue(s[..|s| - 1]) * 10 + DigitValue(s[|s| - 1])
  }

  /** The value 0.d1d2d3... of the digits written after a decimal point. */
  function FractionValue(s: string): (r: real)
    requires AllDigits(s)
    ensures 0.0 <= r < 1.0
  {
    if s == [] then 0.0 else (DigitValue(s[0]) as real + FractionValue(s[1..])) / 10.0
  }

  /** Python's `s.lstrip(c)`: drop every leading `c`. */
  function StripLeading(s: string, c: char): (r: string)
    ensures |r| <= |s| && r == s[|s| - |r|..]
    ensures forall i :: 0 <= i < |s| - |r| ==> s[i] == c
    ensures r == [] || r[0] != c
  {
    if s != [] && s[0] == c then StripLeading(s[1..], c) else s
  }

  /** Python's `s.rstrip(c)`: drop every trailing `c`. */
  function StripTrailing(s: string, c: char): (r: string)
    ensures |r| <= |s| && r == s[..|r|]
    ensures forall i :: |r| <= i < |s| ==> s[i] == c
    ensures r == [] || r[|r| - 1] != c
  {
    if s != [] && s[|s| - 1] == c then StripTrailing(s[..|s| - 1], c) else s
  }

  /** Python's `s.strip(c)`. */
  function Strip(s: string, c: char): string {
    StripTrailing(StripLeading(s, c), c)
  }

  /** `s` with every occurrence of `c` deleted (a regex replace of `c` by ''). */
  function DeleteChar(s: string, c: char): (r: string)
    ensures |r| <= |s|
    ensures forall x :: x in r <==> x in s && x != c
  {
    if s == [] then [] else (if s[0] == c then [] else [s[0]]) + DeleteChar(s[1..], c)
  }

  /** `s` with every occurrence of `a` replaced by `b`. */
  function ReplaceChar(s: string, a: char, b: char): string {
    seq(|s|, i requires 0 <= i < |s| => if s[i] == a then b else s[i])
  }

  /** Python's `float(s)` restricted to optional sign, digits and one decimal point. */
  function ParseFloat(s: string): Option<real> {
    if s != [] && (s[0] == '-' || s[0] == '+') then
      match ParseUnsigned(s[1..])
      case None => None
      case Some(v) => Some(if s[0] == '-' then -v else v)
    else
      ParseUnsigned(s)
  }

  function ParseUnsigned(s: string): Option<real> {
    match Seqs.IndexOf(s, '.')
    case None =>
      if s != [] && AllDigits(s) then Some(DigitsValue(s) as real) else None
    case Some(k) =>
      var whole, frac := s[..k], s[k + 1..];
      if AllDigits(whole) && AllDigits(frac) && |whole| + |frac| > 0
      then Some(DigitsValue(whole) as real + FractionValue(frac))
      else None
  }

  /** The conversion applied to each percentage cell; `None` aborts the run. */
  function ParsePercentage(s: string): Option<real> {
    ParseFloat(ReplaceChar(DeleteChar(Strip(s, '%'), '.'), ',', '.'))
  }

  /** Digits grouped in threes from the right with the '.' thousands separator. */
  function Group(ds: string): string
    requires AllDigits(ds)
    decreases |ds|
  {
    if |ds| <= 3 then ds else Group(ds[..|ds| - 3]) + "." + ds[|ds| - 3..]
  }

  /** The minus sign of a negative number. */
  function SignText(negative: bool): string {
    if negative then "-" else ""
  }

  /** The fraction digits after the decimal mark `point`; nothing when there are none. */
  function Fraction(frac: string, point: char): string {
    if frac == [] then "" else [point] + frac
  }

  /** How the indicator table writes a percentage: "-1.234,56%". */
  function FormatPercentage(negative: bool, whole: string, frac: string): string
    requires AllDigits(whole) && AllDigits(frac) && whole != []
  {
    SignText(negative) + Group(whole) + Fraction(frac, ',') + "%"
  }

  function Magnitude(whole: string, frac: string): real
    requires AllDigits(whole) && AllDigits(frac)
  {
    DigitsValue(whole) as real + FractionValue(frac)
  }

  lemma {:induction false} DeleteConcat(a: string, b: string, c: char)
    ensures DeleteChar(a + b, c) == DeleteChar(a, c) + DeleteChar(b, c)
  {
    if a == [] {
      assert a + b == b;
    } else {
      assert (a + b)[1..] == a[1..] + b;
      DeleteConcat(a[1..], b, c);
    }
  }

  lemma {:induction false} DeleteAbsent(s: string, c: char)
    requires c !in s
    ensures DeleteChar(s, c) == s
  {
    if s != [] {
      DeleteAbsent(s[1..], c);
    }
  }

  lemma {:induction false} GroupShape(ds: string)
    requires AllDigits(ds) && ds != []
    ensures Group(ds) != []
    ensures Group(ds)[0] == ds[0] && Group(ds)[|Group(ds)| - 1] == ds[|ds| - 1]
    ensures ',' !in Group(ds) && '%' !in Group(ds)
  {
    if |ds| > 3 {
      GroupShape(ds[..|ds| - 3]);
    }
  }

  lemma {:induction false} DeleteGroupSeparators(ds: string)
    requires AllDigits(ds)
    ensures DeleteChar(Group(ds), '.') == ds
    decreases |ds|
  {
    if |ds| <= 3 {
      DeleteAbsent(ds, '.');
    } else {
      var hi, lo := ds[..|ds| - 3], ds[|ds| - 3..];
      DeleteGroupSeparators(hi);
      DeleteConcat(Group(hi) + ".", lo, '.');
      DeleteConcat(Group(hi), ".", '.');
      DeleteAbsent(lo, '.');
      assert hi + lo == ds;
    }
  }

  lemma ReplaceConcat(a: string, b: string, x: char, y: char)
    ensures ReplaceChar(a + b, x, y) == ReplaceChar(a, x, y) + ReplaceChar(b, x, y)
  {
  }

  lemma ReplaceAbsent(s: string, x: char, y: char)
    requires x !in s
    ensures ReplaceChar(s, x, y) == s
  {
  }

  /** A string of digits holds no punctuation. */
  lemma NoMarkInDigits(s: string, c: char)
    requires AllDigits(s) && !IsDigit(c)
    ensures c !in s
  {
  }

  lemma ParseUnsignedDecimal(whole: string, frac: string)
    requires AllDigits(whole) && AllDigits(frac) && whole != []
    ensures ParseUnsigned(whole + Fraction(frac, '.')) == Some(Magnitude(whole, frac))
  {
    NoMarkInDigits(whole, '.');
    if frac == [] {
      assert whole + "" == whole;
      assert Seqs.IndexOf(whole, '.') == None;
      assert Magnitude(whole, frac) == DigitsValue(whole) as real + 0.0;
    } else {
      var s := whole + ("." + frac);
      var k := |whole|;
      assert s[k] == '.' && s[..k] == whole;
      assert Seqs.IndexOf(s, '.') == Some(k);
      assert s[k + 1..] == frac;
    }
  }

  /** Stripping '%' from a formatted percentage leaves everything before the sign. */
  lemma StripFormatted(body: string)
    requires body != [] && '%' !in body
    ensures Strip(body + "%", '%') == body
  {
    assert body[0] in body && body[|body| - 1] in body;
    assert StripLeading(body + "%", '%') == body + "%";
    assert (body + "%")[..|body + "%"| - 1] == body;
  }

  lemma DeleteFormatted(sign: string, whole: string, tail: string)
    requires AllDigits(whole) && '.' !in sign && '.' !in tail
    ensures DeleteChar(sign + Group(whole) + tail, '.') == sign + whole + tail
  {
    DeleteConcat(sign + Group(whole), tail, '.');
    DeleteConcat(sign, Group(whole), '.');
    DeleteGroupSeparators(whole);
    DeleteAbsent(sign, '.');
    DeleteAbsent(tail, '.');
  }

  lemma ReplaceFormatted(sign: string, whole: string, frac: string, s: string)
    requires AllDigits(whole) && AllDigits(frac) && ',' !in sign
    requires s == sign + whole + Fraction(frac, ',')
    ensures ReplaceChar(s, ',', '.') == sign + (whole + Fraction(frac, '.'))
  {
    var tail := Fraction(frac, ',');
    ReplaceConcat(sign + whole, tail, ',', '.');
    ReplaceConcat(sign, whole, ',', '.');
    ReplaceAbsent(sign, ',', '.');
    ReplaceAbsent(whole, ',', '.');
  }

  /** `v` with a minus sign when `negative`. */
  function Signed(negative: bool, v: real): real {
    if negative then -v else v
  }

  lemma ParseSigned(negative: bool, unsigned: string, v: real, s: string)
    requires unsigned != [] && IsDigit(unsigned[0]) && ParseUnsigned(unsigned) == Some(v)
    requires s == SignText(negative) + unsigned
    ensures ParseFloat(s) == Some(Signed(negative, v))
  {
    if negative {
      assert s[0] == '-';
      assert s[1..] == unsigned;
    } else {
      assert s == unsigned;
      assert unsigned[0] != '-' && unsigned[0] != '+';
    }
  }

  /** The text steps of the conversion undo the formatting: what is left
      is a sign, the digits and an optional '.' before the fraction. */
  lemma FormattedText(negative: bool, whole: string, frac: string, text: string)
    requires AllDigits(whole) && AllDigits(frac) && whole != []
    requires text == FormatPercentage(negative, whole, frac)
    ensures ReplaceChar(DeleteChar(Strip(text, '%'), '.'), ',', '.')
            == SignText(negative) + (whole + Fraction(frac, '.'))
  {
    var sign, tail := SignText(negative), Fraction(frac, ',');
    var body := sign + Group(whole) + tail;
    GroupShape(whole);
    NoMarkInDigits(frac, '%');
    NoMarkInDigits(frac, '.');
    assert '%' !in tail && '.' !in tail;
    assert text == body + "%";
    StripFormatted(body);
    var stripped := Strip(text, '%');
    assert stripped == body;
    DeleteFormatted(sign, whole, tail);
    var deleted := DeleteChar(stripped, '.');
    assert deleted == sign + whole + tail;
    ReplaceFormatted(sign, whole, frac, deleted);
  }

  /** Reading back what the table writes gives the number written. */
  lemma FormatParseRoundTrip(negative: bool, whole: string, frac: string)
    requires AllDigits(whole) && AllDigits(frac) && whole != []
    ensures ParsePercentage(FormatPercentage(negative, whole, frac))
            == Some(Signed(negative, Magnitude(whole, frac)))
  {
    var text := FormatPercentage(negative, whole, frac);
    var cleaned := ReplaceChar(DeleteChar(Strip(text, '%'), '.'), ',', '.');
    assert ParsePercentage(text) == ParseFloat(cleaned);
    var unsigned := whole + Fraction(frac, '.');
    FormattedText(negative, whole, frac, text);
    ParseUnsignedDecimal(whole, frac);
    ParseSigned(negative, unsigned, Magnitude(whole, frac), cleaned);
  }

  /** The example from the table: "12,3%" reads as 12.3. */
  lemma ParseExample()
    ensures ParsePercentage("12,3%") == Some(12.3)
  {
    assert SignText(false) == "" && Group("12") == "12" && Fraction("3", ',') == ",3";
    assert FormatPercentage(false, "12", "3") == "12,3%";
    FormatParseRoundTrip(false, "12", "3");
    assert DigitsValue("12") == 12 by {
      assert "12"[..1] == "1";
    }
    assert FractionValue("3") == 0.3 by {
      assert "3"[1..] == "";
    }
    assert Signed(false, Magnitude("12", "3")) == 12.3;
  }
}
