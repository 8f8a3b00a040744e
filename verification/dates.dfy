/**
 * The last-quote date rule: a quote date "DD/MM/YYYY" is rewritten as
 * "YYYY-MM-DD" and kept when it compares, as a string, after the ISO form of
 * a cutoff date: the first day of the current month, or 1 December of the
 * previous year in January.
 */
module Dates {
  import opened Wrappers
  import Seqs

  /** Python's `s.split(sep)`: the pieces between separators, always at least one. */
  function Split(s: string, sep: char): (parts: seq<string>)
    ensures |parts| >= 1
    ensures forall i :: 0 <= i < |parts| ==> sep !in parts[i]
    decreases |s|
  {
    match Seqs.IndexOf(s, sep)
    case None => [s]
    case Some(k) => [s[..k]] + Split(s[k + 1..], sep)
  }

  /** Python's `sep.join(parts)`. */
  function Join(parts: seq<string>, sep: char): string
    requires |parts| >= 1
  {
    if |parts| == 1 then parts[0] else parts[0] + [sep] + Join(parts[1..], sep)
  }

  /** Splitting loses nothing: joining the pieces gives the string back. */
  lemma {:induction false} SplitJoin(s: string, sep: char)
    ensures Join(Split(s, sep), sep) == s
    decreases |s|
  {
    match Seqs.IndexOf(s, sep)
    case None =>
    case Some(k) =>
      var rest := Split(s[k + 1..], sep);
      assert Split(s, sep) == [s[..k]] + rest;
      SplitJoin(s[k + 1..], sep);
      assert Join([s[..k]] + rest, sep) == s[..k] + [sep] + Join(rest, sep) by {
        assert ([s[..k]] + rest)[1..] == rest;
      }
      assert s == s[..k] + [sep] + s[k + 1..];
  }

  lemma SplitAfter(a: string, b: string, sep: char)
    requires sep !in a
    ensures Split(a + [sep] + b, sep) == [a] + Split(b, sep)
  {
    var s := a + [sep] + b;
    assert s[|a|] == sep && s[..|a|] == a;
    assert Seqs.IndexOf(s, sep) == Some(|a|);
    assert s[|a| + 1..] == b;
  }

  /** `ano + '-' + mes + '-' + dia` from the pieces of the split; a date with
      fewer than three pieces makes the row function raise. */
  function ReformatDate(s: string): (r: Option<string>)
    ensures r.None? <==> |Split(s, '/')| < 3
  {
    var parts := Split(s, '/');
    if |parts| < 3 then None else Some(parts[2] + "-" + parts[1] + "-" + parts[0])
  }

  /** Python's `<` on strings: code point by code point, a proper prefix first. */
  predicate StrLess(a: string, b: string) {
    if b == [] then false
    else if a == [] then true
    else if a[0] != b[0] then a[0] < b[0]
    else StrLess(a[1..], b[1..])
  }

  /** Comparing two strings that start with equally long prefixes. */
  lemma {:induction false} StrLessConcat(a: string, x: string, b: string, y: string)
    requires |a| == |b|
    ensures StrLess(a + x, b + y) <==> StrLess(a, b) || (a == b && StrLess(x, y))
  {
    if a == [] {
      assert a + x == x && b + y == y;
    } else {
      assert (a + x)[1..] == a[1..] + x && (b + y)[1..] == b[1..] + y;
      assert (a + x)[0] == a[0] && (b + y)[0] == b[0];
      StrLessConcat(a[1..], x, b[1..], y);
      if a[0] == b[0] {
        assert a == b <==> a[1..] == b[1..];
      }
    }
  }

  function Pow10(w: nat): nat {
    if w == 0 then 1 else 10 * Pow10(w - 1)
  }

  function DigitChar(d: nat): char
    requires d < 10
  {
    (('0' as int) + d) as char
  }

  /** `n` written with `w` digits and leading zeros, as `'%0wd' % n` does. */
  function Pad(n: nat, w: nat): (s: string)
    ensures |s| == w && '/' !in s && '-' !in s
  {
    if w == 0 then "" else Pad(n / 10, w - 1) + [DigitChar(n % 10)]
  }

  /** On numbers that fit, zero-padded strings compare as the numbers do. */
  lemma {:induction false} PadOrder(n: nat, m: nat, w: nat)
    requires n < Pow10(w) && m < Pow10(w)
    ensures StrLess(Pad(n, w), Pad(m, w)) <==> n < m
    ensures Pad(n, w) == Pad(m, w) <==> n == m
  {
    if w > 0 {
      PadOrder(n / 10, m / 10, w - 1);
      var p, q := Pad(n / 10, w - 1), Pad(m / 10, w - 1);
      var c, e := DigitChar(n % 10), DigitChar(m % 10);
      StrLessConcat(p, [c], q, [e]);
      assert [c] == [e] <==> n % 10 == m % 10;
      assert Pad(n, w) == p + [c] && Pad(m, w) == q + [e];
      assert Pad(n, w) == Pad(m, w) <==> p == q && c == e by {
        if Pad(n, w) == Pad(m, w) {
          assert Pad(n, w)[..w - 1] == p && Pad(m, w)[..w - 1] == q;
          assert Pad(n, w)[w - 1] == c && Pad(m, w)[w - 1] == e;
        }
      }
    }
  }

  datatype Date = Date(year: int, month: int, day: int)

  /** `date(y, m, d).isoformat()`. */
  function IsoFormat(d: Date): string
    requires 0 <= d.year < 10000 && 0 <= d.month < 100 && 0 <= d.day < 100
  {
    Pad(d.year, 4) + "-" + Pad(d.month, 2) + "-" + Pad(d.day, 2)
  }

  /** A date as the listing writes it: "DD/MM/YYYY". */
  function DateText(d: Date): string
    requires 0 <= d.year < 10000 && 0 <= d.month < 100 && 0 <= d.day < 100
  {
    Pad(d.day, 2) + "/" + Pad(d.month, 2) + "/" + Pad(d.year, 4)
  }

  predicate Before(a: Date, b: Date) {
    a.year < b.year || (a.year == b.year && (a.month < b.month || (a.month == b.month && a.day < b.day)))
  }

  /** The cutoff date; `None` when it would fall before year 1 (date() raises). */
  function MinimumDate(year: int, month: int): (r: Option<Date>)
    requires 1 <= year <= 9999 && 1 <= month <= 12
    ensures r.None? <==> year == 1 && month == 1
    ensures month != 1 ==> r == Some(Date(year, month, 1))
    ensures month == 1 && year > 1 ==> r == Some(Date(year - 1, 12, 1))
    ensures r.Some? ==> r.value.day == 1 && 1 <= r.value.year <= year && 1 <= r.value.month <= 12
    ensures r.Some? ==> Before(r.value, Date(year, month, 2))
    ensures r.Some? ==> forall d: Date :: Before(d, r.value) ==> Before(d, Date(year, month, 1)) && (month == 1 ==> Before(d, Date(year - 1, 12, 2)))
  {
    if month == 1 then
      if year == 1 then None else Some(Date(year - 1, 12, 1))
    else
      Some(Date(year, month, 1))
  }

  /** Three pieces without the separator, joined by it, split back into themselves. */
  lemma SplitThree(a: string, b: string, c: string, sep: char)
    requires sep !in a && sep !in b && sep !in c
    ensures Split(a + [sep] + b + [sep] + c, sep) == [a, b, c]
  {
    SplitAfter(b, c, sep);
    assert Split(c, sep) == [c];
    assert a + [sep] + b + [sep] + c == a + [sep] + (b + [sep] + c);
    SplitAfter(a, b + [sep] + c, sep);
  }

  /** The reformatting turns the listing's date into its ISO form. */
  lemma ReformatDateText(d: Date)
    requires 0 <= d.year < 10000 && 0 <= d.month < 100 && 0 <= d.day < 100
    ensures ReformatDate(DateText(d)) == Some(IsoFormat(d))
  {
    var dd, mm, yy := Pad(d.day, 2), Pad(d.month, 2), Pad(d.year, 4);
    SplitThree(dd, mm, yy, '/');
    assert DateText(d) == dd + ['/'] + mm + ['/'] + yy;
  }

  /** The "-MM-DD" tails of two ISO dates compare as month, then day. */
  lemma MonthDayOrder(a: Date, b: Date)
    requires 0 <= a.month < 100 && 0 <= a.day < 100 && 0 <= b.month < 100 && 0 <= b.day < 100
    ensures StrLess("-" + (Pad(a.month, 2) + ("-" + Pad(a.day, 2))), "-" + (Pad(b.month, 2) + ("-" + Pad(b.day, 2))))
            <==> a.month < b.month || (a.month == b.month && a.day < b.day)
  {
    PadOrder(a.month, b.month, 2);
    PadOrder(a.day, b.day, 2);
    var ma, mb := Pad(a.month, 2), Pad(b.month, 2);
    var da, db := Pad(a.day, 2), Pad(b.day, 2);
    StrLessConcat("-", ma + ("-" + da), "-", mb + ("-" + db));
    StrLessConcat(ma, "-" + da, mb, "-" + db);
    StrLessConcat("-", da, "-", db);
  }

  lemma IsoParts(d: Date)
    requires 0 <= d.year < 10000 && 0 <= d.month < 100 && 0 <= d.day < 100
    ensures IsoFormat(d) == Pad(d.year, 4) + ("-" + (Pad(d.month, 2) + ("-" + Pad(d.day, 2))))
  {
  }

  /** ISO strings of dates compare as the dates do. */
  lemma IsoOrder(a: Date, b: Date)
    requires 0 <= a.year < 10000 && 0 <= a.month < 100 && 0 <= a.day < 100
    requires 0 <= b.year < 10000 && 0 <= b.month < 100 && 0 <= b.day < 100
    ensures StrLess(IsoFormat(a), IsoFormat(b)) <==> Before(a, b)
  {
    PadOrder(a.year, b.year, 4);
    var ya, yb := Pad(a.year, 4), Pad(b.year, 4);
    var ta := "-" + (Pad(a.month, 2) + ("-" + Pad(a.day, 2)));
    var tb := "-" + (Pad(b.month, 2) + ("-" + Pad(b.day, 2)));
    IsoParts(a);
    IsoParts(b);
    StrLessConcat(ya, ta, yb, tb);
    MonthDayOrder(a, b);
  }

  /** The row test of the staleness filter. */
  predicate IsRecent(isoQuote: string, cutoff: Date)
    requires 0 <= cutoff.year < 10000 && 0 <= cutoff.month < 100 && 0 <= cutoff.day < 100
  {
    StrLess(IsoFormat(cutoff), isoQuote)
  }

  /** For a quote date written as the listing writes it, the staleness test
      keeps it exactly when it falls strictly after the cutoff date. */
  lemma RecentIffAfterCutoff(quote: Date, year: int, month: int)
    requires 0 <= quote.year < 10000 && 0 <= quote.month < 100 && 0 <= quote.day < 100
    requires 1 <= year <= 9999 && 1 <= month <= 12 && MinimumDate(year, month).Some?
    ensures var cutoff := MinimumDate(year, month).value;
      ReformatDate(DateText(quote)).Some?
      && (IsRecent(ReformatDate(DateText(quote)).value, cutoff) <==> Before(cutoff, quote))
  {
    ReformatDateText(quote);
    IsoOrder(MinimumDate(year, month).value, quote);
  }

  lemma PadExamples()
    ensures Pad(5, 2) == "05" && Pad(1, 2) == "01" && Pad(12, 2) == "12"
    ensures Pad(2024, 4) == "2024" && Pad(2023, 4) == "2023"
  {
    assert Pad(20, 2) == "20";
    assert Pad(202, 3) == "202";
  }

  /** The ISO forms of the two dates of the January example. */
  lemma IsoExamples()
    ensures IsoFormat(Date(2024, 1, 5)) == "2024-01-05"
    ensures IsoFormat(Date(2023, 12, 1)) == "2023-12-01"
  {
    PadExamples();
    IsoParts(Date(2024, 1, 5));
    IsoParts(Date(2023, 12, 1));
  }

  /** In January the cutoff reaches back to 1 December: a quote of
      5 January 2024 is kept on 10 January 2024. */
  lemma JanuaryGracePeriod()
    ensures MinimumDate(2024, 1) == Some(Date(2023, 12, 1))
    ensures IsRecent("2024-01-05", Date(2023, 12, 1))
  {
    IsoExamples();
    IsoOrder(Date(2023, 12, 1), Date(2024, 1, 5));
  }
}
