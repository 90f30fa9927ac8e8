/** `extract_date` of `utils.py`: the first `yyyy-m-d`-shaped match of
    `\d{4}[-/年]\d{1,2}[-/月]\d{1,2}`, with 年 and 月 rewritten to '-', read by
    `strptime(..., "%Y-%m-%d")`. */
module Dates {
  import opened Wrappers
  import opened Strings

  datatype Date = Date(year: nat, month: nat, day: nat)

  /** The Gregorian leap-year rule `datetime` applies. */
  predicate IsLeap(y: nat) {
    y % 4 == 0 && (y % 100 != 0 || y % 400 == 0)
  }

  function DaysInMonth(y: nat, m: nat): nat
    requires 1 <= m <= 12
  {
    if m == 2 then (if IsLeap(y) then 29 else 28)
    else if m == 4 || m == 6 || m == 9 || m == 11 then 30
    else 31
  }

  /** A date `datetime` accepts (years 1 to 9999). */
  predicate ValidDate(d: Date) {
    1 <= d.year <= 9999 && 1 <= d.month <= 12 && 1 <= d.day <= DaysInMonth(d.year, d.month)
  }

  /** The dates a `datetime` can hold. */
  type CalendarDate = d: Date | ValidDate(d) witness Date(1, 1, 1)

  /** `[-/年]` and `[-/月]`. */
  predicate IsYearSep(c: char) { c == '-' || c == '/' || c == '\U{5E74}' }
  predicate IsMonthSep(c: char) { c == '-' || c == '/' || c == '\U{6708}' }

  /** A match of the date pattern: its five groups of text. */
  datatype DateMatch = DateMatch(year: string, sep1: char, month: string, sep2: char, day: string)

  predicate WellFormed(m: DateMatch) {
    && |m.year| == 4 && AllDigits(m.year) && IsYearSep(m.sep1)
    && 1 <= |m.month| <= 2 && AllDigits(m.month) && IsMonthSep(m.sep2)
    && 1 <= |m.day| <= 2 && AllDigits(m.day)
  }

  /** The text the match covers. */
  function Matched(m: DateMatch): string {
    m.year + [m.sep1] + m.month + [m.sep2] + m.day
  }

  /** How many digits `\d{1,2}[-/月]` gives the month at `j` (greedy, with backtracking), or 0. */
  function MonthWidth(t: string, j: nat): (w: nat)
    ensures w <= 2
    ensures w > 0 ==> j + w < |t| && AllDigits(t[j..j + w]) && IsMonthSep(t[j + w])
  {
    if j + 2 < |t| && IsDigit(t[j]) && IsDigit(t[j + 1]) && IsMonthSep(t[j + 2]) then 2
    else if j + 1 < |t| && IsDigit(t[j]) && IsMonthSep(t[j + 1]) then 1
    else 0
  }

  /** The pattern anchored at `i`. */
  function MatchAt(t: string, i: nat): (r: Option<DateMatch>)
    ensures r.Some? ==> WellFormed(r.value)
  {
    if i + 5 <= |t| && IsDigit(t[i]) && IsDigit(t[i + 1]) && IsDigit(t[i + 2]) && IsDigit(t[i + 3])
       && IsYearSep(t[i + 4]) then
      var j := i + 5;
      var mw := MonthWidth(t, j);
      var k := j + mw + 1;
      if mw > 0 && k < |t| && IsDigit(t[k]) then
        var dw := if k + 1 < |t| && IsDigit(t[k + 1]) then 2 else 1;
        DigitsAt(t, i, 4);
        DigitsAt(t, k, dw);
        Some(DateMatch(t[i..i + 4], t[i + 4], t[j..j + mw], t[j + mw], t[k..k + dw]))
      else None
    else None
  }

  lemma DigitsAt(t: string, a: nat, n: nat)
    requires a + n <= |t| && forall q :: a <= q < a + n ==> IsDigit(t[q])
    ensures AllDigits(t[a..a + n])
  {
    var d := t[a..a + n];
    assert forall q :: 0 <= q < n ==> d[q] == t[a + q];
  }

  /** A match covers the text at the position it was found. */
  lemma MatchAtCovers(t: string, i: nat)
    ensures MatchAt(t, i).Some? ==> OccursAt(t, Matched(MatchAt(t, i).value), i)
  {
    if MatchAt(t, i).Some? {
      var m := MatchAt(t, i).value;
      var mw, dw := |m.month|, |m.day|;
      assert m == DateMatch(t[i..i + 4], t[i + 4], t[i + 5..i + 5 + mw], t[i + 5 + mw],
                            t[i + 6 + mw..i + 6 + mw + dw]);
      SliceFive(t, i, mw, dw);
    }
  }

  /** The text of a match, cut at its two separators. */
  lemma SliceFive(t: string, i: nat, mw: nat, dw: nat)
    requires i + 6 + mw + dw <= |t|
    ensures t[i..i + 6 + mw + dw]
         == t[i..i + 4] + [t[i + 4]] + t[i + 5..i + 5 + mw] + [t[i + 5 + mw]] + t[i + 6 + mw..i + 6 + mw + dw]
  {
    var j, k, e := i + 5, i + 6 + mw, i + 6 + mw + dw;
    var year, sep1, month, sep2, day := t[i..i + 4], [t[i + 4]], t[j..j + mw], [t[j + mw]], t[k..e];
    SliceSplit(t, j + mw, k, e);
    assert t[j + mw..k] == sep2;
    SliceSplit(t, j, j + mw, e);
    assert t[j..e] == month + (sep2 + day);
    SliceSplit(t, i + 4, j, e);
    assert t[i + 4..j] == sep1;
    SliceSplit(t, i, i + 4, e);
    assert t[i..e] == year + (sep1 + (month + (sep2 + day)));
  }

  /** A well-formed date written out is found as itself, provided a one-digit day is not
      followed by another digit (the greedy `\d{1,2}` would take it). */
  lemma MatchAtText(m: DateMatch, rest: string)
    requires WellFormed(m)
    requires |m.day| == 2 || |rest| == 0 || !IsDigit(rest[0])
    ensures MatchAt(Matched(m) + rest, 0) == Some(m)
  {
    MatchedShape(m, rest);
    MatchedGroups(m, rest);
  }

  /** What `MatchAt` tests on a written-out match: its digits, separators and widths. */
  lemma MatchedShape(m: DateMatch, rest: string)
    requires WellFormed(m)
    requires |m.day| == 2 || |rest| == 0 || !IsDigit(rest[0])
    ensures var t, k := Matched(m) + rest, 6 + |m.month|;
      && 5 <= |t| && IsDigit(t[0]) && IsDigit(t[1]) && IsDigit(t[2]) && IsDigit(t[3]) && IsYearSep(t[4])
      && MonthWidth(t, 5) == |m.month| && k < |t| && IsDigit(t[k])
      && (if k + 1 < |t| && IsDigit(t[k + 1]) then 2 else 1) == |m.day|
  {
    var t := Matched(m) + rest;
    MatchedLayout(m, rest);
    assert MonthWidth(t, 5) == |m.month|;
  }

  /** The groups `MatchAt` cuts out of a written-out match are the match's own. */
  lemma MatchedGroups(m: DateMatch, rest: string)
    requires WellFormed(m)
    ensures var t, mw := Matched(m) + rest, |m.month|;
      && 6 + mw + |m.day| <= |t|
      && t[0..4] == m.year && t[4] == m.sep1 && t[5..5 + mw] == m.month && t[5 + mw] == m.sep2
      && t[6 + mw..6 + mw + |m.day|] == m.day
  {
    MatchedLayout(m, rest);
  }


  /** Where each group of a written-out match sits in the text. */
  lemma MatchedLayout(m: DateMatch, rest: string)
    requires WellFormed(m)
    ensures var t, mw, dw := Matched(m) + rest, |m.month|, |m.day|;
      && |t| == 6 + mw + dw + |rest|
      && (forall q :: 0 <= q < 4 ==> t[q] == m.year[q])
      && t[4] == m.sep1 && t[5 + mw] == m.sep2
      && (forall q :: 0 <= q < mw ==> t[5 + q] == m.month[q])
      && (forall q :: 0 <= q < dw ==> t[6 + mw + q] == m.day[q])
      && (forall q :: 0 <= q < |rest| ==> t[6 + mw + dw + q] == rest[q])
  {
  }

  lemma SliceSplit(t: string, a: nat, b: nat, c: nat)
    requires a <= b <= c <= |t|
    ensures t[a..c] == t[a..b] + t[b..c]
  {
  }

  /** `re.search` from position `i`: a well-formed match, or nothing only when no position
      from `i` on matches. */
  function Search(t: string, i: nat): (r: Option<DateMatch>)
    requires i <= |t|
    ensures r.Some? ==> WellFormed(r.value)
    ensures r.None? ==> forall q :: i <= q <= |t| ==> MatchAt(t, q).None?
    decreases |t| - i
  {
    if MatchAt(t, i).Some? then MatchAt(t, i)
    else if i == |t| then None
    else Search(t, i + 1)
  }

  /** `p` is the leftmost position from `i` on where the pattern matches. */
  ghost predicate FirstFrom(t: string, i: nat, p: nat) {
    i <= p <= |t| && MatchAt(t, p).Some? && forall q :: i <= q < p ==> MatchAt(t, q).None?
  }

  lemma FirstFromUnique(t: string, i: nat, p: nat, p': nat)
    requires FirstFrom(t, i, p) && FirstFrom(t, i, p')
    ensures p == p'
  {
  }

  /** The search returns the match at the leftmost matching position, and nothing only when
      no position matches. */
  lemma {:induction false} SearchIsLeftmost(t: string, i: nat)
    requires i <= |t|
    ensures Search(t, i).Some? ==> exists p :: FirstFrom(t, i, p) && MatchAt(t, p) == Search(t, i)
    ensures Search(t, i).None? ==> forall q :: i <= q <= |t| ==> MatchAt(t, q).None?
    decreases |t| - i
  {
    if MatchAt(t, i).Some? {
      assert FirstFrom(t, i, i);
    } else if i < |t| {
      SearchIsLeftmost(t, i + 1);
      if Search(t, i + 1).Some? {
        var p :| FirstFrom(t, i + 1, p) && MatchAt(t, p) == Search(t, i + 1);
        assert FirstFrom(t, i, p);
      }
    }
  }

  /** The search's result is the match at the (one) leftmost matching position. */
  lemma SearchDecides(t: string)
    ensures forall p :: FirstFrom(t, 0, p) ==> MatchAt(t, p) == Search(t, 0)
  {
    SearchIsLeftmost(t, 0);
    forall p | FirstFrom(t, 0, p) ensures MatchAt(t, p) == Search(t, 0) {
      var p0 :| FirstFrom(t, 0, p0) && MatchAt(t, p0) == Search(t, 0);
      FirstFromUnique(t, 0, p, p0);
    }
  }

  /** The `.replace("年", "-").replace("月", "-")` on a separator. */
  function Normalize(c: char): char {
    if c == '\U{5E74}' || c == '\U{6708}' then '-' else c
  }

  function DateOf(m: DateMatch): Date
    requires WellFormed(m)
  {
    Date(Decimal(m.year), Decimal(m.month), Decimal(m.day))
  }

  /** `strptime(normalised, "%Y-%m-%d")`: both separators must read '-', the month 1-12, the
      day 1-31 and then valid for the month, the year at least 1. */
  function Parse(m: DateMatch): (r: Option<Date>)
    requires WellFormed(m)
    ensures r.Some? ==> ValidDate(r.value) && r.value == DateOf(m)
    ensures r.Some? <==> Normalize(m.sep1) == '-' && Normalize(m.sep2) == '-' && ValidDate(DateOf(m))
  {
    if Normalize(m.sep1) == '-' && Normalize(m.sep2) == '-' && ValidDate(DateOf(m)) then Some(DateOf(m))
    else None
  }

  /** `extract_date`: only the first match is tried; a match that is not a valid date gives
      None even when a later one would be. */
  function ExtractDate(t: string): (r: Option<Date>)
    ensures r.Some? ==> ValidDate(r.value)
    ensures r.Some? ==> exists p :: FirstFrom(t, 0, p) && DateOf(MatchAt(t, p).value) == r.value
    ensures r.None? ==> forall p :: FirstFrom(t, 0, p) ==> Parse(MatchAt(t, p).value).None?
    ensures forall p :: FirstFrom(t, 0, p) ==> r == Parse(MatchAt(t, p).value)
    ensures (forall q :: 0 <= q <= |t| ==> MatchAt(t, q).None?) ==> r.None?
  {
    SearchIsLeftmost(t, 0);
    SearchDecides(t);
    match Search(t, 0)
    case None => None
    case Some(m) => Parse(m)
  }

  // ---- the zero-padded ISO form ----

  function Digit(n: nat): (c: char)
    requires n < 10
    ensures IsDigit(c) && DigitValue(c) == n
  {
    (('0' as int) + n) as char
  }

  function Pad2(n: nat): (s: string)
    requires n < 100
    ensures |s| == 2 && AllDigits(s) && Decimal(s) == n
  {
    var s := [Digit(n / 10), Digit(n % 10)];
    DecimalTwo(s);
    s
  }

  function Pad4(n: nat): (s: string)
    requires n < 10000
    ensures |s| == 4 && AllDigits(s) && Decimal(s) == n
  {
    var hi, lo := Pad2(n / 100), Pad2(n % 100);
    var s := hi + lo;
    DecimalAppend2(hi, lo);
    s
  }

  /** `YYYY-MM-DD`. */
  function Iso(d: Date): string
    requires ValidDate(d)
  {
    Pad4(d.year) + "-" + Pad2(d.month) + "-" + Pad2(d.day)
  }

  lemma NoDateBefore(t: string, n: nat)
    requires n <= |t| && forall q :: 0 <= q < n ==> !IsDigit(t[q])
    ensures forall q :: 0 <= q < n ==> MatchAt(t, q).None?
  {
  }

  lemma {:induction false} SearchSkips(t: string, i: nat, p: nat)
    requires i <= p <= |t|
    requires forall q :: i <= q < p ==> MatchAt(t, q).None?
    ensures Search(t, i) == Search(t, p)
    decreases p - i
  {
    if i < p {
      assert MatchAt(t, i).None?;
      assert Search(t, i) == Search(t, i + 1);
      SearchSkips(t, i + 1, p);
    }
  }

  /** A valid date written `YYYY-MM-DD` after text with no digits is found, whatever follows. */
  lemma ExtractDateIso(prefix: string, d: Date, suffix: string)
    requires ValidDate(d)
    requires forall q :: 0 <= q < |prefix| ==> !IsDigit(prefix[q])
    ensures ExtractDate(prefix + Iso(d) + suffix) == Some(d)
  {
    var t := prefix + Iso(d) + suffix;
    var n := |prefix|;
    var y, mo, da := Pad4(d.year), Pad2(d.month), Pad2(d.day);
    assert t[n..n + 4] == y;
    assert t[n + 4] == '-';
    assert t[n + 5..n + 7] == mo;
    assert t[n + 7] == '-';
    assert t[n + 8..n + 10] == da;
    assert MonthWidth(t, n + 5) == 2;
    var m := MatchAt(t, n).value;
    assert m == DateMatch(y, '-', mo, '-', da);
    NoDateBefore(t, n);
    SearchSkips(t, 0, n);
    assert Search(t, n) == Some(m);
  }

  /** Slashes are not rewritten, so `strptime` rejects them. */
  lemma SlashDateRejected()
    ensures ExtractDate("2025/07/08") == None
  {
    var t := "2025/07/08";
    assert MonthWidth(t, 5) == 2;
    assert MatchAt(t, 0).Some?;
  }

  /** 年 and 月 become '-': the Chinese form is read. */
  lemma ChineseDateRead()
    ensures ExtractDate("2025\U{5E74}7\U{6708}8\U{65E5}") == Some(Date(2025, 7, 8))
  {
    var t := "2025\U{5E74}7\U{6708}8\U{65E5}";
    var m := DateMatch("2025", '\U{5E74}', "7", '\U{6708}', "8");
    assert Matched(m) + "\U{65E5}" == t;
    MatchAtText(m, "\U{65E5}");
    ExtractAtStart(t);
    ChineseDateParsed();
  }

  lemma ChineseDateParsed()
    ensures Parse(DateMatch("2025", '\U{5E74}', "7", '\U{6708}', "8")) == Some(Date(2025, 7, 8))
  {
    DecimalOfYear();
    assert Decimal("7") == 7 by { assert "7"[..0] == ""; }
    assert Decimal("8") == 8 by { assert "8"[..0] == ""; }
  }

  lemma DecimalOfYear()
    ensures Decimal("2025") == 2025
  {
    assert "2025"[..3] == "202";
    assert "202"[..2] == "20";
    assert "20"[..1] == "2";
    assert "2"[..0] == "";
  }

  /** Only the first match counts: an impossible month hides a later valid date. */
  lemma FirstMatchOnly()
    ensures ExtractDate("2025-13-01 2025-01-01") == None
  {
    var t := "2025-13-01 2025-01-01";
    var m := DateMatch("2025", '-', "13", '-', "01");
    assert Matched(m) + " 2025-01-01" == t;
    MatchAtText(m, " 2025-01-01");
    ExtractAtStart(t);
    MonthThirteenRejected();
  }

  lemma MonthThirteenRejected()
    ensures Parse(DateMatch("2025", '-', "13", '-', "01")) == None
  {
    assert Decimal("13") == 13 by { assert "13"[..1] == "1" && "1"[..0] == ""; }
  }

  /** A text that opens with a match is read from that match. */
  lemma ExtractAtStart(t: string)
    requires MatchAt(t, 0).Some?
    ensures ExtractDate(t) == Parse(MatchAt(t, 0).value)
  {
    assert FirstFrom(t, 0, 0);
  }
}
