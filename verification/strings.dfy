/** Character classes and string operations of Python's `str`, as the source uses them. */
module Strings {

  /** Python's `str.isspace()`; `\s` of `re` on text patterns and `str.strip()` use the same set. */
  predicate IsSpace(c: char) {
    c in SpaceChars
  }

  /** The 29 characters for which `str.isspace()` holds: `\t` to `\r`, the four separators
      `\x1c` to `\x1f`, the space, NEL, no-break space and the Unicode space separators. */
  const SpaceChars: set<char> := {
    '\t', '\n', '\U{B}', '\U{C}', '\r', '\U{1C}', '\U{1D}', '\U{1E}', '\U{1F}', ' ',
    '\U{85}', '\U{A0}', '\U{1680}', '\U{2000}', '\U{2001}', '\U{2002}', '\U{2003}',
    '\U{2004}', '\U{2005}', '\U{2006}', '\U{2007}', '\U{2008}', '\U{2009}', '\U{200A}',
    '\U{2028}', '\U{2029}', '\U{202F}', '\U{205F}', '\U{3000}'
  }

  /** The line boundaries of Python's `str.splitlines()` (`\r\n` counts as one boundary). */
  predicate IsLineBreak(c: char) {
    || c == '\n' || c == '\r' || c == '\U{B}' || c == '\U{C}'
    || ('\U{1C}' <= c <= '\U{1E}')
    || c == '\U{85}' || c == '\U{2028}' || c == '\U{2029}'
  }

  /** `\d`, restricted to ASCII digits. */
  predicate IsDigit(c: char) {
    '0' <= c <= '9'
  }

  /** How many leading characters of `t` satisfy `p`: the extent of a greedy `[...]*`. */
  function Leading(t: string, p: char -> bool): (k: nat)
    ensures k <= |t|
    ensures forall i :: 0 <= i < k ==> p(t[i])
    ensures k < |t| ==> !p(t[k])
  {
    if |t| > 0 && p(t[0]) then 1 + Leading(t[1..], p) else 0
  }

  /** How many characters of `t` satisfy `p`: `len(re.findall('[...]', t))`. */
  function Count(t: string, p: char -> bool): nat
  {
    if |t| == 0 then 0 else (if p(t[0]) then 1 else 0) + Count(t[1..], p)
  }

  /** `sub` occurs in `s` at index `i`. */
  predicate OccursAt(s: string, sub: string, i: int) {
    0 <= i <= |s| - |sub| && s[i..i + |sub|] == sub
  }

  /** Python's `sub in s`. */
  predicate Contains(s: string, sub: string) {
    exists i :: 0 <= i <= |s| - |sub| && OccursAt(s, sub, i)
  }

  /** Python's `any(k in s for k in subs)`. */
  predicate ContainsAny(s: string, subs: seq<string>) {
    exists k :: 0 <= k < |subs| && Contains(s, subs[k])
  }

  /** Python's `sep.join(parts)`. */
  function Join(parts: seq<string>, sep: string): string
  {
    if |parts| == 0 then ""
    else if |parts| == 1 then parts[0]
    else parts[0] + sep + Join(parts[1..], sep)
  }

  /** Python's `t.split(sep)` for a non-empty separator: leftmost, non-overlapping occurrences. */
  function Split(t: string, sep: string): (r: seq<string>)
    requires |sep| > 0
    ensures |r| >= 1
    decreases |t|
  {
    if |t| < |sep| then [t]
    else if t[..|sep|] == sep then [""] + Split(t[|sep|..], sep)
    else
      var rest := Split(t[1..], sep);
      [[t[0]] + rest[0]] + rest[1..]
  }

  /** Joining the pieces of a split with the same separator gives back the text. */
  lemma {:induction false} JoinSplit(t: string, sep: string)
    requires |sep| > 0
    ensures Join(Split(t, sep), sep) == t
    decreases |t|
  {
    if |t| < |sep| {
    } else if t[..|sep|] == sep {
      var rest := Split(t[|sep|..], sep);
      JoinSplit(t[|sep|..], sep);
      assert Split(t, sep) == [""] + rest;
      assert ([""] + rest)[1..] == rest;
      assert Join(Split(t, sep), sep) == "" + sep + Join(rest, sep);
      assert t == t[..|sep|] + t[|sep|..];
    } else {
      var rest := Split(t[1..], sep);
      JoinSplit(t[1..], sep);
      var parts := [[t[0]] + rest[0]] + rest[1..];
      assert Split(t, sep) == parts;
      if |rest| == 1 {
        assert Join(parts, sep) == [t[0]] + rest[0];
      } else {
        assert parts[1..] == rest[1..];
        assert Join(parts, sep) == ([t[0]] + rest[0]) + sep + Join(rest[1..], sep);
        assert Join(rest, sep) == rest[0] + sep + Join(rest[1..], sep);
      }
      assert t == [t[0]] + t[1..];
    }
  }

  /** Drops the leading `str.isspace()` characters. */
  function TrimStart(t: string): (r: string)
    ensures |r| <= |t| && r == t[|t| - |r|..]
    ensures forall i :: 0 <= i < |t| - |r| ==> IsSpace(t[i])
    ensures |r| > 0 ==> !IsSpace(r[0])
  {
    if |t| > 0 && IsSpace(t[0]) then
      var r := TrimStart(t[1..]);
      assert t[1..][|t| - 1 - |r|..] == t[|t| - |r|..];
      assert forall i :: 1 <= i < |t| - |r| ==> t[i] == t[1..][i - 1];
      r
    else t
  }

  /** Drops the trailing `str.isspace()` characters. */
  function TrimEnd(t: string): (r: string)
    ensures |r| <= |t| && r == t[..|r|]
    ensures forall i :: |r| <= i < |t| ==> IsSpace(t[i])
    ensures |r| > 0 ==> !IsSpace(r[|r| - 1])
  {
    if |t| > 0 && IsSpace(t[|t| - 1]) then TrimEnd(t[..|t| - 1]) else t
  }

  /** Python's `t.strip()`: a substring of `t` with no whitespace at either end, what is cut
      from either side being whitespace, and `t` itself when `t` already has none there. */
  function Strip(t: string): (r: string)
    ensures |r| <= |t|
    ensures exists i :: (0 <= i <= |t| - |r| && OccursAt(t, r, i)
                         && (forall j :: 0 <= j < i ==> IsSpace(t[j]))
                         && (forall j :: i + |r| <= j < |t| ==> IsSpace(t[j])))
    ensures |r| > 0 ==> !IsSpace(r[0]) && !IsSpace(r[|r| - 1])
    ensures (|t| == 0 || (!IsSpace(t[0]) && !IsSpace(t[|t| - 1]))) ==> r == t
  {
    var s := TrimStart(t);
    var r := TrimEnd(s);
    assert OccursAt(t, r, |t| - |s|);
    r
  }

  /** Python's `t.splitlines()`: no trailing empty piece, `\r\n` is one boundary. */
  function SplitLines(t: string): seq<string>
    decreases |t|
  {
    if |t| == 0 then []
    else if IsLineBreak(t[0]) then
      [""] + SplitLines(t[if t[0] == '\r' && |t| > 1 && t[1] == '\n' then 2 else 1..])
    else
      var rest := SplitLines(t[1..]);
      if |rest| == 0 then [[t[0]]] else [[t[0]] + rest[0]] + rest[1..]
  }

  predicate NoLineBreak(s: string) {
    forall i :: 0 <= i < |s| ==> !IsLineBreak(s[i])
  }

  lemma {:induction false} SplitLinesFirst(w: string, rest: string)
    requires NoLineBreak(w)
    ensures SplitLines(w + "\n" + rest) == [w] + SplitLines(rest)
    decreases |w|
  {
    var t := w + "\n" + rest;
    if |w| == 0 {
      assert t == "\n" + rest;
      assert t[1..] == rest;
    } else {
      assert t[1..] == w[1..] + "\n" + rest;
      SplitLinesFirst(w[1..], rest);
      assert [t[0]] + w[1..] == w;
    }
  }

  lemma {:induction false} SplitLinesSingle(w: string)
    requires |w| > 0 && NoLineBreak(w)
    ensures SplitLines(w) == [w]
    decreases |w|
  {
    if |w| == 1 {
      assert w[1..] == "";
      assert [w[0]] == w;
    } else {
      SplitLinesSingle(w[1..]);
      assert [w[0]] + w[1..] == w;
    }
  }

  /** Lines that are non-empty and free of line breaks survive a join with `"\n"` and a `splitlines()`. */
  lemma {:induction false} SplitLinesJoin(lines: seq<string>)
    requires forall k :: 0 <= k < |lines| ==> |lines[k]| > 0 && NoLineBreak(lines[k])
    ensures SplitLines(Join(lines, "\n")) == lines
    decreases |lines|
  {
    if |lines| == 0 {
    } else if |lines| == 1 {
      SplitLinesSingle(lines[0]);
    } else {
      SplitLinesJoin(lines[1..]);
      SplitLinesFirst(lines[0], Join(lines[1..], "\n"));
      assert lines == [lines[0]] + lines[1..];
    }
  }

  /** Lines that are non-empty and free of line breaks, joined with `"\n"`: the only line breaks
      are the separators, and the text is empty exactly when there are no lines and otherwise
      does not end in a line break. */
  lemma {:induction false} JoinLinesShape(lines: seq<string>)
    requires forall k :: 0 <= k < |lines| ==> |lines[k]| > 0 && NoLineBreak(lines[k])
    ensures var r := Join(lines, "\n");
      && (|r| == 0 <==> |lines| == 0)
      && (|r| > 0 ==> !IsLineBreak(r[|r| - 1]))
      && (forall i :: 0 <= i < |r| && IsLineBreak(r[i]) ==> r[i] == '\n')
    decreases |lines|
  {
    if |lines| > 1 {
      var w, j := lines[0], Join(lines[1..], "\n");
      JoinLinesShape(lines[1..]);
      var r := w + "\n" + j;
      assert r == Join(lines, "\n");
      assert r[|r| - 1] == j[|j| - 1];
      forall i | 0 <= i < |r| ensures IsLineBreak(r[i]) ==> r[i] == '\n' {
        if i < |w| {
          assert r[i] == w[i];
        } else if i > |w| {
          assert r[i] == j[i - |w| - 1];
        }
      }
    }
  }

  predicate AllDigits(s: string) {
    forall i :: 0 <= i < |s| ==> IsDigit(s[i])
  }

  function DigitValue(c: char): nat
    requires IsDigit(c)
  {
    (c as int) - ('0' as int)
  }

  /** The value of a string of decimal digits, as `int()` reads it. */
  function Decimal(s: string): nat
    requires AllDigits(s)
  {
    if |s| == 0 then 0 else Decimal(s[..|s| - 1]) * 10 + DigitValue(s[|s| - 1])
  }

  lemma DecimalTwo(s: string)
    requires |s| == 2 && AllDigits(s)
    ensures Decimal(s) == DigitValue(s[0]) * 10 + DigitValue(s[1])
  {
    var h := s[..1];
    assert h[..0] == [] && h[0] == s[0];
    assert Decimal(h) == DigitValue(s[0]);
  }

  lemma DecimalAppend2(a: string, b: string)
    requires AllDigits(a) && AllDigits(b) && |b| == 2
    ensures AllDigits(a + b) && Decimal(a + b) == Decimal(a) * 100 + Decimal(b)
  {
    var s := a + b;
    var a' := a + [b[0]];
    assert s[..|s| - 1] == a' && a'[..|a|] == a;
    assert Decimal(a') == Decimal(a) * 10 + DigitValue(b[0]);
    DecimalTwo(b);
    assert Decimal(s) == Decimal(a') * 10 + DigitValue(b[1]);
  }
}
