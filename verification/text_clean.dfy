/** `clean_text` and `clean_ocr_text` of `utils.py`. */
module TextClean {
  import opened Strings
  import Seqs

  // ---- clean_text ----

  /** Every whitespace character is a plain space and none is followed by another. */
  predicate Collapsed(s: string) {
    forall i :: 0 <= i < |s| && IsSpace(s[i]) ==> s[i] == ' ' && (i + 1 < |s| ==> !IsSpace(s[i + 1]))
  }

  predicate NotSpace(c: char) { !IsSpace(c) }

  /** `re.sub(r"\s+", " ", t)`: each maximal whitespace run becomes one space. */
  function Collapse(t: string): (r: string)
    ensures |r| == 0 <==> |t| == 0
    ensures |t| > 0 ==> (IsSpace(r[0]) <==> IsSpace(t[0]))
    ensures Collapsed(r)
    decreases |t|
  {
    if |t| == 0 then ""
    else if IsSpace(t[0]) then
      var rest := Collapse(t[Leading(t, IsSpace)..]);
      assert |rest| > 0 ==> !IsSpace(rest[0]);
      " " + rest
    else
      var rest := Collapse(t[1..]);
      assert forall i :: 0 < i < |[t[0]] + rest| ==> ([t[0]] + rest)[i] == rest[i - 1];
      [t[0]] + rest
  }

  /** `clean_text`: collapse whitespace runs, then strip. */
  function CleanText(t: string): (r: string)
    ensures Collapsed(r)
    ensures |r| > 0 ==> !IsSpace(r[0]) && !IsSpace(r[|r| - 1])
  {
    var c := Collapse(t);
    var s := TrimStart(c);
    CollapsedSlice(c, |c| - |s|, |c|);
    CollapsedSlice(s, 0, |TrimEnd(s)|);
    Strip(c)
  }

  lemma CollapsedSlice(c: string, i: nat, j: nat)
    requires i <= j <= |c| && Collapsed(c)
    ensures Collapsed(c[i..j])
  {
    var s := c[i..j];
    forall k | 0 <= k < |s| && IsSpace(s[k]) ensures s[k] == ' ' && (k + 1 < |s| ==> !IsSpace(s[k + 1])) {
      assert s[k] == c[i + k];
      if k + 1 < |s| { assert s[k + 1] == c[i + k + 1]; }
    }
  }

  /** A collapsed text is left alone by another collapse. */
  lemma {:induction false} CollapseOfCollapsed(s: string)
    requires Collapsed(s)
    ensures Collapse(s) == s
    decreases |s|
  {
    if |s| > 0 {
      assert Collapsed(s[1..]) by {
        forall i | 0 <= i < |s[1..]| && IsSpace(s[1..][i])
          ensures s[1..][i] == ' ' && (i + 1 < |s[1..]| ==> !IsSpace(s[1..][i + 1]))
        {
          assert s[1..][i] == s[i + 1];
        }
      }
      if IsSpace(s[0]) {
        assert Leading(s, IsSpace) == 1 by {
          assert |s| > 1 ==> !IsSpace(s[1]);
          assert s[1..] == [] || !IsSpace(s[1..][0]);
        }
      }
      CollapseOfCollapsed(s[1..]);
      assert s == [s[0]] + s[1..];
    }
  }

  /** `clean_text` is idempotent. */
  lemma CleanTextIdempotent(t: string)
    ensures CleanText(CleanText(t)) == CleanText(t)
  {
    CollapseOfCollapsed(CleanText(t));
  }

  /** Python's `t.split()`: the maximal runs of non-whitespace characters, in order. */
  function Words(t: string): (ws: seq<string>)
    ensures forall k :: 0 <= k < |ws| ==> |ws[k]| > 0
    decreases |t|
  {
    var s := TrimStart(t);
    if |s| == 0 then []
    else
      var k := Leading(s, NotSpace);
      assert k > 0 by { assert NotSpace(s[0]); }
      var rest := Words(s[k..]);
      NonEmptyCons(s[..k], rest);
      [s[..k]] + rest
  }

  lemma NonEmptyCons(w: string, ws: seq<string>)
    requires |w| > 0 && forall k :: 0 <= k < |ws| ==> |ws[k]| > 0
    ensures forall k :: 0 <= k < |[w] + ws| ==> |([w] + ws)[k]| > 0
  {
    forall k | 0 < k < |[w] + ws| ensures |([w] + ws)[k]| > 0 {
      assert ([w] + ws)[k] == ws[k - 1];
    }
  }

  lemma {:induction false} CollapseWord(w: string, rest: string)
    requires forall i :: 0 <= i < |w| ==> !IsSpace(w[i])
    ensures Collapse(w + rest) == w + Collapse(rest)
    decreases |w|
  {
    if |w| > 0 {
      assert !IsSpace(w[0]);
      CollapseWord(w[1..], rest);
      CollapseWordStep(w, rest);
    } else {
      assert w + rest == rest;
    }
  }

  lemma CollapseWordStep(w: string, rest: string)
    requires |w| > 0 && !IsSpace(w[0])
    requires Collapse(w[1..] + rest) == w[1..] + Collapse(rest)
    ensures Collapse(w + rest) == w + Collapse(rest)
  {
    var t := w + rest;
    assert t[0] == w[0];
    assert t[1..] == w[1..] + rest;
    CollapseVisibleHead(t);
    AppendAssoc([w[0]], w[1..], Collapse(rest));
    assert [w[0]] + w[1..] == w;
  }

  /** A visible first character is copied and the rest collapsed. */
  lemma CollapseVisibleHead(t: string)
    requires |t| > 0 && !IsSpace(t[0])
    ensures Collapse(t) == [t[0]] + Collapse(t[1..])
  {
  }

  lemma {:induction false} TrimEndAppend(a: string, b: string)
    requires |b| > 0 && !IsSpace(b[0])
    ensures TrimEnd(a + b) == a + TrimEnd(b)
    decreases |b|
  {
    var t := a + b;
    if IsSpace(b[|b| - 1]) {
      assert |b| > 1;
      assert t[..|t| - 1] == a + b[..|b| - 1];
      TrimEndAppend(a, b[..|b| - 1]);
    }
  }

  /** Leading whitespace changes neither the cleaned text nor the words. */
  lemma CleanTextSkipsLeadingSpace(t: string)
    requires |t| > 0 && IsSpace(t[0])
    ensures CleanText(t) == CleanText(t[Leading(t, IsSpace)..])
    ensures Words(t) == Words(t[Leading(t, IsSpace)..])
  {
    var k := Leading(t, IsSpace);
    var rest := t[k..];
    var c := Collapse(rest);
    assert Collapse(t) == " " + c;
    assert TrimStart(" " + c) == TrimStart(c) by { assert (" " + c)[1..] == c; }
    TrimStartSkips(t, k);
  }

  lemma {:induction false} TrimStartSkips(t: string, k: nat)
    requires k <= |t| && forall i :: 0 <= i < k ==> IsSpace(t[i])
    ensures TrimStart(t) == TrimStart(t[k..])
    decreases k
  {
    if k > 0 {
      assert t[1..][k - 1..] == t[k..];
      TrimStartSkips(t[1..], k - 1);
    }
  }

  /** A text opening with a word: the word, then the collapsed and split remainder. */
  lemma WordFirst(t: string)
    requires |t| > 0 && !IsSpace(t[0])
    ensures var m := Leading(t, NotSpace);
      && t == t[..m] + t[m..] && m > 0
      && Collapse(t) == t[..m] + Collapse(t[m..])
      && Words(t) == [t[..m]] + Words(t[m..])
      && (|t[m..]| > 0 ==> IsSpace(t[m..][0]))
  {
    var m := Leading(t, NotSpace);
    assert t == t[..m] + t[m..];
    assert TrimStart(t) == t;
    CollapseWord(t[..m], t[m..]);
  }

  lemma JoinCons(w: string, ws: seq<string>, sep: string)
    requires |ws| > 0
    ensures Join([w] + ws, sep) == w + sep + Join(ws, sep)
  {
    assert ([w] + ws)[0] == w && ([w] + ws)[1..] == ws;
  }

  /** A single word, alone or followed by whitespace, cleans to itself. */
  lemma LoneWord(w: string, tail: string)
    requires |w| > 0 && !IsSpace(w[0]) && !IsSpace(w[|w| - 1])
    requires tail == "" || tail == " "
    ensures TrimEnd(TrimStart(w + tail)) == w
  {
    assert TrimStart(w + tail) == w + tail;
    if tail == " " {
      assert (w + " ")[..|w + " "| - 1] == w;
    } else {
      assert w + tail == w;
    }
  }

  /** A word, a space and a collapsed text that opens with a non-space character: only the
      far end is trimmed. */
  lemma WordSpaceRest(w: string, u: string)
    requires |w| > 0 && !IsSpace(w[0]) && |u| > 0 && !IsSpace(u[0])
    ensures TrimEnd(TrimStart(w + " " + Collapse(u))) == w + " " + CleanText(u)
    ensures |Words(u)| > 0
  {
    var c := Collapse(u);
    assert TrimStart(u) == u;
    assert TrimStart(c) == c;
    assert TrimStart(w + " " + c) == w + " " + c;
    TrimEndAppend(w + " ", c);
  }

  /** The inductive step of `CleanTextJoinsWords` for a text that opens with a word `w`
      followed by whitespace and a remainder `u` that opens with a non-space character. */
  lemma WordThenMore(t: string, w: string, rest: string, u: string)
    requires |w| > 0 && !IsSpace(w[0]) && |u| > 0 && !IsSpace(u[0])
    requires Collapse(t) == w + Collapse(rest) && Words(t) == [w] + Words(rest)
    requires Collapse(rest) == " " + Collapse(u) && Words(rest) == Words(u)
    requires CleanText(u) == Join(Words(u), " ")
    ensures CleanText(t) == Join(Words(t), " ")
  {
    AppendAssoc(w, " ", Collapse(u));
    WordSpaceRest(w, u);
    JoinCons(w, Words(u), " ");
  }

  lemma AppendAssoc<T>(a: seq<T>, b: seq<T>, c: seq<T>)
    ensures a + (b + c) == a + b + c
  {
  }

  /** The inductive step for a text that is one word, possibly followed by whitespace. */
  lemma WordAlone(t: string, w: string, rest: string)
    requires |w| > 0 && !IsSpace(w[0]) && !IsSpace(w[|w| - 1])
    requires Collapse(t) == w + Collapse(rest) && Words(t) == [w] + Words(rest)
    requires Collapse(rest) == "" || Collapse(rest) == " "
    requires Words(rest) == []
    ensures CleanText(t) == Join(Words(t), " ")
  {
    LoneWord(w, Collapse(rest));
  }

  /** What follows the first word of `t` and the whitespace after it. */
  function AfterFirstWord(t: string): (u: string)
    ensures |u| < |t| || |t| == 0
  {
    var rest := t[Leading(t, NotSpace)..];
    rest[Leading(rest, IsSpace)..]
  }

  /** The inductive step for a text that opens with a word, given the claim for what follows
      that word and its whitespace. */
  lemma WordCase(t: string)
    requires |t| > 0 && !IsSpace(t[0])
    requires CleanText(AfterFirstWord(t)) == Join(Words(AfterFirstWord(t)), " ")
    ensures CleanText(t) == Join(Words(t), " ")
  {
    if |t[Leading(t, NotSpace)..]| == 0 {
      WordCaseSingle(t);
    } else {
      WordCaseSpaced(t);
    }
  }

  lemma WordCaseSingle(t: string)
    requires |t| > 0 && !IsSpace(t[0])
    requires |t[Leading(t, NotSpace)..]| == 0
    ensures CleanText(t) == Join(Words(t), " ")
  {
    assert Leading(t, NotSpace) == |t|;
    WordToTheEnd(t);
    SingleWordCleans(t);
    SingleWordSplits(t);
    JoinOne(t, " ");
  }

  lemma WordToTheEnd(t: string)
    requires Leading(t, NotSpace) == |t|
    ensures forall i :: 0 <= i < |t| ==> !IsSpace(t[i])
  {
    assert forall i :: 0 <= i < |t| ==> NotSpace(t[i]);
  }

  lemma JoinOne(w: string, sep: string)
    ensures Join([w], sep) == w
  {
  }

  /** A text without whitespace cleans to itself. */
  lemma SingleWordCleans(t: string)
    requires |t| > 0 && forall i :: 0 <= i < |t| ==> !IsSpace(t[i])
    ensures CleanText(t) == t
  {
    CollapseWord(t, "");
    assert t + "" == t;
  }

  /** A text without whitespace is one word. */
  lemma SingleWordSplits(t: string)
    requires |t| > 0 && Leading(t, NotSpace) == |t|
    ensures Words(t) == [t]
  {
    assert TrimStart(t) == t;
    assert t[..|t|] == t;
    assert t[|t|..] == "";
  }

  lemma WordCaseSpaced(t: string)
    requires |t| > 0 && !IsSpace(t[0])
    requires |t[Leading(t, NotSpace)..]| > 0
    requires CleanText(AfterFirstWord(t)) == Join(Words(AfterFirstWord(t)), " ")
    ensures CleanText(t) == Join(Words(t), " ")
  {
    WordFirst(t);
    var m := Leading(t, NotSpace);
    var w, rest := t[..m], t[m..];
    var u := AfterFirstWord(t);
    CleanTextSkipsLeadingSpace(rest);
    assert Collapse(rest) == " " + Collapse(u);
    if |u| == 0 {
      assert Collapse(u) == "" && Words(u) == [];
      assert w[m - 1] == t[m - 1] && NotSpace(t[m - 1]);
      WordAlone(t, w, rest);
    } else {
      WordThenMore(t, w, rest, u);
    }
  }

  /** `clean_text(t)` is `" ".join(t.split())`: the words of `t`, each separated by one space. */
  lemma {:induction false} CleanTextJoinsWords(t: string)
    ensures CleanText(t) == Join(Words(t), " ")
    decreases |t|
  {
    if |t| == 0 {
    } else if IsSpace(t[0]) {
      CleanTextSkipsLeadingSpace(t);
      CleanTextJoinsWords(t[Leading(t, IsSpace)..]);
    } else {
      CleanTextJoinsWords(AfterFirstWord(t));
      WordCase(t);
    }
  }

  // ---- clean_ocr_text ----

  /** The characters `clean_ocr_text` keeps: CJK ideographs U+4E00-U+9FA5, ASCII letters and
      digits, and the punctuation ，。！？；（）%《》“”‘’、·— and '-'. */
  predicate OcrAllowed(c: char) {
    || ('\U{4E00}' <= c <= '\U{9FA5}')
    || ('a' <= c <= 'z') || ('A' <= c <= 'Z') || ('0' <= c <= '9')
    || c == '\U{FF0C}' || c == '\U{3002}' || c == '\U{FF01}' || c == '\U{FF1F}' || c == '\U{FF1B}'
    || c == '\U{FF08}' || c == '\U{FF09}' || c == '%' || c == '\U{300A}' || c == '\U{300B}'
    || c == '\U{201C}' || c == '\U{201D}' || c == '\U{2018}' || c == '\U{2019}' || c == '\U{3001}'
    || c == '\U{B7}' || c == '\U{2014}' || c == '-'
  }

  predicate AllAllowed(s: string) {
    forall i :: 0 <= i < |s| ==> OcrAllowed(s[i])
  }

  /** The `re.sub` that deletes every character outside the allowed class. */
  function KeepAllowed(s: string): (r: string)
    ensures AllAllowed(r)
    ensures |r| <= |s|
    ensures AllAllowed(s) ==> r == s
  {
    if |s| == 0 then ""
    else
      var rest := KeepAllowed(s[1..]);
      if OcrAllowed(s[0]) then
        assert AllAllowed(s) ==> AllAllowed(s[1..]) by {
          if AllAllowed(s) { forall i | 0 <= i < |s[1..]| ensures OcrAllowed(s[1..][i]) { assert s[1..][i] == s[i + 1]; } }
        }
        assert forall i :: 0 < i < |[s[0]] + rest| ==> ([s[0]] + rest)[i] == rest[i - 1];
        [s[0]] + rest
      else rest
  }

  /** The substitution keeps every allowed character of `s`, as often as it occurs and in its
      original order, and nothing else: it is the list filter over characters. */
  lemma {:induction false} KeepAllowedIsFilter(s: string)
    ensures KeepAllowed(s) == Seqs.Filter(s, OcrAllowed)
    ensures forall c :: multiset(KeepAllowed(s))[c] == if OcrAllowed(c) then multiset(s)[c] else 0
    ensures Seqs.IsSubsequence(KeepAllowed(s), s)
  {
    if |s| > 0 {
      KeepAllowedIsFilter(s[1..]);
      KeepAllowedStep(s);
    }
    Seqs.FilterIsSubsequence(s, OcrAllowed);
    Seqs.FilterCounts(s, OcrAllowed);
  }

  lemma KeepAllowedStep(s: string)
    requires |s| > 0
    ensures KeepAllowed(s) == (if OcrAllowed(s[0]) then [s[0]] else []) + KeepAllowed(s[1..])
  {
    if !OcrAllowed(s[0]) {
      assert [] + KeepAllowed(s[1..]) == KeepAllowed(s[1..]);
    }
  }

  /** One input line after `strip()` and the character filter. */
  function CleanLine(line: string): string {
    KeepAllowed(Strip(line))
  }

  /** Every line of `t` cleaned, kept or not. */
  function CleanedLines(t: string): (ls: seq<string>)
    ensures |ls| == |SplitLines(t)|
    ensures forall k :: 0 <= k < |ls| ==> AllAllowed(ls[k])
  {
    CleanAll(SplitLines(t))
  }

  /** Each line through `CleanLine`, in order. */
  function CleanAll(lines: seq<string>): (cl: seq<string>)
    ensures |cl| == |lines|
    ensures forall k :: 0 <= k < |cl| ==> AllAllowed(cl[k])
  {
    if |lines| == 0 then []
    else
      var rest := CleanAll(lines[1..]);
      var cl := [CleanLine(lines[0])] + rest;
      assert forall k :: 0 < k < |cl| ==> cl[k] == rest[k - 1];
      cl
  }

  function LongEnough(line: string): bool { |line| >= 3 }

  /** The lines `clean_ocr_text` keeps, before they are joined. */
  function OcrLines(t: string): (ls: seq<string>)
    ensures |ls| <= |SplitLines(t)|
    ensures forall x :: x in ls ==> |x| >= 3 && AllAllowed(x)
    ensures Seqs.IsSubsequence(ls, CleanedLines(t))
    ensures forall x :: multiset(ls)[x] == if |x| >= 3 then multiset(CleanedLines(t))[x] else 0
  {
    KeepLong(CleanedLines(t))
  }

  /** The `len(line) >= 3` filter over cleaned lines. */
  function KeepLong(cl: seq<string>): (ls: seq<string>)
    requires forall k :: 0 <= k < |cl| ==> AllAllowed(cl[k])
    ensures |ls| <= |cl|
    ensures forall k :: 0 <= k < |ls| ==> |ls[k]| >= 3 && AllAllowed(ls[k])
    ensures Seqs.IsSubsequence(ls, cl)
    ensures forall x :: multiset(ls)[x] == if |x| >= 3 then multiset(cl)[x] else 0
  {
    var ls := Seqs.Filter(cl, LongEnough);
    Seqs.FilterIsSubsequence(cl, LongEnough);
    Seqs.FilterCounts(cl, LongEnough);
    KeptLinesClean(cl, ls);
    ls
  }

  lemma KeptLinesClean(cl: seq<string>, ls: seq<string>)
    requires forall k :: 0 <= k < |cl| ==> AllAllowed(cl[k])
    requires forall x :: x in ls <==> x in cl && LongEnough(x)
    ensures forall k :: 0 <= k < |ls| ==> |ls[k]| >= 3 && AllAllowed(ls[k])
  {
    forall k | 0 <= k < |ls| ensures |ls[k]| >= 3 && AllAllowed(ls[k]) {
      assert ls[k] in ls;
      var m :| 0 <= m < |cl| && cl[m] == ls[k];
    }
  }

  /** No allowed character is whitespace or a line boundary. */
  lemma AllowedIsVisible(c: char)
    requires OcrAllowed(c)
    ensures !IsSpace(c) && !IsLineBreak(c)
  {
  }

  /** `clean_ocr_text`: the kept lines joined with newlines. Reading the output back line by
      line gives exactly those lines, every line break in it is a '\n' between two of them, and
      it is empty exactly when no line is kept. */
  function CleanOcrText(t: string): (r: string)
    ensures SplitLines(r) == OcrLines(t)
    ensures forall i :: 0 <= i < |r| && IsLineBreak(r[i]) ==> r[i] == '\n'
    ensures |r| > 0 ==> !IsLineBreak(r[|r| - 1])
    ensures |r| == 0 <==> |OcrLines(t)| == 0
  {
    var ls := OcrLines(t);
    forall k | 0 <= k < |ls| ensures |ls[k]| > 0 && NoLineBreak(ls[k]) {
      forall i | 0 <= i < |ls[k]| ensures !IsLineBreak(ls[k][i]) { AllowedIsVisible(ls[k][i]); }
    }
    SplitLinesJoin(ls);
    JoinLinesShape(ls);
    Join(ls, "\n")
  }

  /** A kept line is already clean: no edge whitespace, only allowed characters, long enough. */
  lemma CleanLineOfKept(line: string)
    requires |line| >= 3 && AllAllowed(line)
    ensures CleanLine(line) == line
  {
    AllowedIsVisible(line[0]);
    AllowedIsVisible(line[|line| - 1]);
  }

  lemma {:induction false} FilterKeepsAll<T(!new)>(s: seq<T>, p: T -> bool)
    requires forall k :: 0 <= k < |s| ==> p(s[k])
    ensures Seqs.Filter(s, p) == s
    decreases |s|
  {
    if |s| > 0 {
      FilterKeepsAll(s[1..], p);
      assert [s[0]] + s[1..] == s;
    }
  }

  /** Lines that `clean_ocr_text` would keep come through cleaning unchanged. */
  lemma {:induction false} CleanAllOfKept(ls: seq<string>)
    requires forall k :: 0 <= k < |ls| ==> |ls[k]| >= 3 && AllAllowed(ls[k])
    ensures CleanAll(ls) == ls
    decreases |ls|
  {
    if |ls| > 0 {
      var tail := ls[1..];
      assert [ls[0]] + tail == ls;
      assert forall k :: 0 <= k < |tail| ==> tail[k] == ls[k + 1];
      CleanAllOfKept(tail);
      CleanLineOfKept(ls[0]);
    }
  }

  /** `clean_ocr_text` is idempotent. */
  lemma CleanOcrTextIdempotent(t: string)
    ensures CleanOcrText(CleanOcrText(t)) == CleanOcrText(t)
  {
    var r := CleanOcrText(t);
    var ls := OcrLines(t);
    assert SplitLines(r) == ls;
    forall k | 0 <= k < |ls| ensures |ls[k]| >= 3 && AllAllowed(ls[k]) {
      assert ls[k] in ls;
    }
    CleanAllOfKept(ls);
    assert CleanedLines(r) == ls;
    FilterKeepsAll(ls, LongEnough);
    assert OcrLines(r) == ls;
  }
}
