/** `re.split(r'\n\s*\n', text)` followed by `strip()` on each piece: the paragraphs
    `extract_content_by_keyword` looks through, and how joining them with a blank line can be
    undone. */
module Paragraphs {
  import opened Strings

  const BlankLine := "\n\n"

  /** Scans the whitespace run from `j`, `last` being one past the latest line feed seen in it so
      far (or where the scan began): one past the run's last line feed. */
  function RunLastFeed(t: string, j: nat, last: nat): (r: nat)
    requires last <= j <= |t|
    ensures last <= r <= |t|
    ensures r > last ==> j < r && t[r - 1] == '\n'
    decreases |t| - j
  {
    if j < |t| && IsSpace(t[j]) then RunLastFeed(t, j + 1, if t[j] == '\n' then j + 1 else last)
    else last
  }

  /** The length of the match of `\n\s*\n` at `i`, or 0 when there is none. The `\s*` first takes
      the whole whitespace run after the line feed and then gives characters back until the next
      character is a line feed, so the match ends at the run's last line feed. */
  function BreakLen(t: string, i: nat): (k: nat)
    requires i <= |t|
    ensures i + k <= |t|
    ensures k > 0 ==> k >= 2 && t[i] == '\n' && t[i + k - 1] == '\n'
    ensures i == |t| || t[i] != '\n' ==> k == 0
  {
    if i < |t| && t[i] == '\n' then
      var e := RunLastFeed(t, i + 1, i + 1);
      if e > i + 1 then e - i else 0
    else 0
  }

  /** What the scan finds, stated against the whitespace run `t[j..run]`: nothing when the run
      holds no line feed, and otherwise a position after which the run holds none. */
  lemma {:induction false} RunLastFeedSpec(t: string, j: nat, last: nat)
    requires last <= j <= |t|
    ensures var r, run := RunLastFeed(t, j, last), j + Leading(t[j..], IsSpace);
      && r <= run
      && (r > last ==> forall q :: r <= q < run ==> t[q] != '\n')
      && (r == last ==> forall q :: j <= q < run ==> t[q] != '\n')
    decreases |t| - j
  {
    if j < |t| && IsSpace(t[j]) {
      RunLastFeedSpec(t, j + 1, if t[j] == '\n' then j + 1 else last);
      assert t[j..][1..] == t[j + 1..];
    }
  }

  /** At a line feed, with `run` the end of the whitespace run after it: there is a match exactly
      when the run holds another line feed, the match ends at the run's last line feed, and all
      it covers is whitespace. */
  lemma BreakLenLongest(t: string, i: nat)
    requires i < |t| && t[i] == '\n'
    ensures var k, run := BreakLen(t, i), i + 1 + Leading(t[i + 1..], IsSpace);
      && (k > 0 <==> exists j :: i < j < run && t[j] == '\n')
      && (k > 0 ==> i + k <= run && forall j :: i + k <= j < run ==> t[j] != '\n')
      && (k > 0 ==> forall j :: i < j < i + k ==> IsSpace(t[j]))
  {
    RunLastFeedSpec(t, i + 1, i + 1);
    var u := t[i + 1..];
    var run := i + 1 + Leading(u, IsSpace);
    assert forall j :: i < j < run ==> t[j] == u[j - i - 1];
    var e := RunLastFeed(t, i + 1, i + 1);
    if e > i + 1 {
      assert i < e - 1 < run && t[e - 1] == '\n';
    }
  }

  /** Two line feeds in a row always start a break. */
  lemma DoubleLineFeedBreaks(t: string, i: nat)
    requires i + 1 < |t| && t[i] == '\n' && t[i + 1] == '\n'
    ensures BreakLen(t, i) > 0
  {
    assert IsSpace(t[i + 1]);
  }

  /** The texts of the matches `re.split` finds from `i` on, in order: each a line feed,
      whitespace, and a line feed. */
  function Breaks(t: string, i: nat): seq<string>
    requires i <= |t|
    decreases |t| - i
  {
    if i == |t| then []
    else
      var k := BreakLen(t, i);
      if k > 0 then [t[i..i + k]] + Breaks(t, i + k) else Breaks(t, i + 1)
  }

  /** Every break is a line feed, whitespace, and a line feed. */
  lemma {:induction false} BreaksAreMatches(t: string, i: nat)
    requires i <= |t|
    ensures forall b :: b in Breaks(t, i) ==> IsBreakText(b)
    decreases |t| - i, 1
  {
    if i == |t| {
    } else if BreakLen(t, i) > 0 {
      BreaksAreMatchesCut(t, i);
    } else {
      BreaksAreMatches(t, i + 1);
    }
  }

  lemma {:induction false} BreaksAreMatchesCut(t: string, i: nat)
    requires i < |t| && BreakLen(t, i) > 0
    ensures forall b :: b in Breaks(t, i) ==> IsBreakText(b)
    decreases |t| - i, 0
  {
    BreaksAreMatches(t, i + BreakLen(t, i));
    BreakText(t, i);
    assert Breaks(t, i) == [t[i..i + BreakLen(t, i)]] + Breaks(t, i + BreakLen(t, i));
  }

  /** A line feed, whitespace, and a line feed. */
  predicate IsBreakText(b: string) {
    && |b| >= 2 && b[0] == '\n' && b[|b| - 1] == '\n'
    && forall j :: 0 <= j < |b| ==> IsSpace(b[j])
  }

  /** The text of one match. */
  lemma BreakText(t: string, i: nat)
    requires i < |t| && BreakLen(t, i) > 0
    ensures IsBreakText(t[i..i + BreakLen(t, i)])
  {
    var k := BreakLen(t, i);
    BreakLenLongest(t, i);
    var b := t[i..i + k];
    assert forall j :: 0 <= j < k ==> b[j] == t[i + j];
  }

  /** `ps[0] + bs[0] + ps[1] + ... + ps[n]`: pieces with the separators between them. */
  function Interleave(ps: seq<string>, bs: seq<string>): string
    requires |ps| == |bs| + 1
  {
    if |bs| == 0 then ps[0] else ps[0] + bs[0] + Interleave(ps[1..], bs[1..])
  }

  /** `re.split`, from `i` on, the current piece having started at `start`: a match ends the piece
      and the search resumes after it. There is one piece more than there are matches. */
  function Pieces(t: string, start: nat, i: nat): (r: seq<string>)
    requires start <= i <= |t|
    ensures |r| >= 1
    decreases |t| - i
  {
    if i == |t| then [t[start..]]
    else
      var k := BreakLen(t, i);
      if k > 0 then [t[start..i]] + Pieces(t, i + k, i + k)
      else Pieces(t, start, i + 1)
  }

  /** The stripped blank-line-separated paragraphs of `t`: one per piece of the split. */
  function Paragraphs(t: string): (ps: seq<string>)
    ensures |ps| >= 1
    ensures |ps| == |Pieces(t, 0, 0)|
    ensures forall k :: 0 <= k < |ps| ==> ps[k] == Strip(Pieces(t, 0, 0)[k])
  {
    var pieces := Pieces(t, 0, 0);
    seq(|pieces|, k requires 0 <= k < |pieces| => Strip(pieces[k]))
  }

  /** There is one piece more than there are matches. */
  lemma {:induction false} PiecesCount(t: string, start: nat, i: nat)
    requires start <= i <= |t|
    ensures |Pieces(t, start, i)| == |Breaks(t, i)| + 1
    decreases |t| - i, 1
  {
    if i == |t| {
      PiecesEnd(t, start);
    } else if BreakLen(t, i) > 0 {
      PiecesCountCut(t, start, i);
    } else {
      PiecesCountPass(t, start, i);
    }
  }

  lemma {:induction false} PiecesCountCut(t: string, start: nat, i: nat)
    requires start <= i < |t| && BreakLen(t, i) > 0
    ensures |Pieces(t, start, i)| == |Breaks(t, i)| + 1
    decreases |t| - i, 0
  {
    PiecesCount(t, i + BreakLen(t, i), i + BreakLen(t, i));
    CountStep(t, start, i);
  }

  /** A match at `i` adds one piece and one match to what the rest counts. */
  lemma CountStep(t: string, start: nat, i: nat)
    requires start <= i < |t| && BreakLen(t, i) > 0
    requires |Pieces(t, i + BreakLen(t, i), i + BreakLen(t, i))| == |Breaks(t, i + BreakLen(t, i))| + 1
    ensures |Pieces(t, start, i)| == |Breaks(t, i)| + 1
  {
    PiecesCut(t, start, i);
  }

  lemma {:induction false} PiecesCountPass(t: string, start: nat, i: nat)
    requires start <= i < |t| && BreakLen(t, i) == 0
    ensures |Pieces(t, start, i)| == |Breaks(t, i)| + 1
    decreases |t| - i, 0
  {
    PiecesCount(t, start, i + 1);
    PiecesPass(t, start, i);
  }

  /** The pieces and the matches between them rebuild the text. */
  lemma {:induction false} PiecesRebuild(t: string, start: nat, i: nat)
    requires start <= i <= |t|
    ensures |Pieces(t, start, i)| == |Breaks(t, i)| + 1
         && Interleave(Pieces(t, start, i), Breaks(t, i)) == t[start..]
    decreases |t| - i, 1
  {
    if i == |t| {
      PiecesEnd(t, start);
    } else if BreakLen(t, i) > 0 {
      PiecesRebuildCut(t, start, i);
    } else {
      PiecesRebuildPass(t, start, i);
    }
  }

  lemma {:induction false} PiecesRebuildCut(t: string, start: nat, i: nat)
    requires start <= i < |t| && BreakLen(t, i) > 0
    ensures |Pieces(t, start, i)| == |Breaks(t, i)| + 1
         && Interleave(Pieces(t, start, i), Breaks(t, i)) == t[start..]
    decreases |t| - i, 0
  {
    PiecesRebuild(t, i + BreakLen(t, i), i + BreakLen(t, i));
    RebuildStep(t, start, i);
  }

  /** A match at `i` puts one piece and one match in front of what the rest rebuilds. */
  lemma RebuildStep(t: string, start: nat, i: nat)
    requires start <= i < |t| && BreakLen(t, i) > 0
    requires |Pieces(t, i + BreakLen(t, i), i + BreakLen(t, i))| == |Breaks(t, i + BreakLen(t, i))| + 1
    requires Interleave(Pieces(t, i + BreakLen(t, i), i + BreakLen(t, i)), Breaks(t, i + BreakLen(t, i)))
          == t[i + BreakLen(t, i)..]
    ensures |Pieces(t, start, i)| == |Breaks(t, i)| + 1
         && Interleave(Pieces(t, start, i), Breaks(t, i)) == t[start..]
  {
    PiecesCut(t, start, i);
    SliceThree(t, start, i, i + BreakLen(t, i));
    InterleaveCons(t[start..i], t[i..i + BreakLen(t, i)],
                   Pieces(t, i + BreakLen(t, i), i + BreakLen(t, i)), Breaks(t, i + BreakLen(t, i)));
  }

  lemma SliceThree(t: string, a: nat, b: nat, c: nat)
    requires a <= b <= c <= |t|
    ensures t[a..] == t[a..b] + t[b..c] + t[c..]
  {
  }

  lemma {:induction false} PiecesRebuildPass(t: string, start: nat, i: nat)
    requires start <= i < |t| && BreakLen(t, i) == 0
    ensures |Pieces(t, start, i)| == |Breaks(t, i)| + 1
         && Interleave(Pieces(t, start, i), Breaks(t, i)) == t[start..]
    decreases |t| - i, 0
  {
    PiecesRebuild(t, start, i + 1);
    PiecesPass(t, start, i);
  }

  /** At the end of the text the current piece is all that is left. */
  lemma PiecesEnd(t: string, start: nat)
    requires start <= |t|
    ensures Pieces(t, start, |t|) == [t[start..]] && Breaks(t, |t|) == []
  {
  }

  /** A match at `i` ends the current piece. */
  lemma PiecesCut(t: string, start: nat, i: nat)
    requires start <= i < |t| && BreakLen(t, i) > 0
    ensures var k := BreakLen(t, i);
      && Pieces(t, start, i) == [t[start..i]] + Pieces(t, i + k, i + k)
      && Breaks(t, i) == [t[i..i + k]] + Breaks(t, i + k)
  {
  }

  /** No match at `i`: the piece goes on. */
  lemma PiecesPass(t: string, start: nat, i: nat)
    requires start <= i < |t| && BreakLen(t, i) == 0
    ensures Pieces(t, start, i) == Pieces(t, start, i + 1) && Breaks(t, i) == Breaks(t, i + 1)
  {
  }

  lemma InterleaveCons(p: string, b: string, ps: seq<string>, bs: seq<string>)
    requires |ps| == |bs| + 1
    ensures Interleave([p] + ps, [b] + bs) == p + b + Interleave(ps, bs)
  {
    assert ([p] + ps)[1..] == ps && ([b] + bs)[1..] == bs;
  }

  /** No match of `\n\s*\n` starts anywhere in `p`. */
  predicate BreakFree(p: string) {
    forall j :: 0 <= j <= |p| ==> BreakLen(p, j) == 0
  }

  /** A match inside a stretch of the text is a match in the text itself. */
  lemma BreakTransfer(t: string, a: nat, b: nat, j: nat)
    requires a <= b <= |t| && j <= b - a
    requires BreakLen(t[a..b], j) > 0
    ensures BreakLen(t, a + j) > 0
  {
    var p := t[a..b];
    var k := BreakLen(p, j);
    BreakLenLongest(p, j);
    assert t[a + j] == p[j];
    var u := t[a + j + 1..];
    assert forall q :: 0 <= q < k - 1 ==> u[q] == p[j + 1 + q];
    var e := a + j + k - 1;
    assert t[e] == p[j + k - 1];
    BreakLenLongest(t, a + j);
  }

  /** No piece holds a match: `re.split` has cut at every one. */
  lemma {:induction false} PiecesBreakFree(t: string, start: nat, i: nat)
    requires start <= i <= |t|
    requires forall j :: start <= j < i ==> BreakLen(t, j) == 0
    ensures forall p :: p in Pieces(t, start, i) ==> BreakFree(p)
    decreases |t| - i, 1
  {
    if i == |t| {
      StretchBreakFree(t, start, |t|);
      PiecesEnd(t, start);
      assert t[start..] == t[start..|t|];
    } else if BreakLen(t, i) > 0 {
      PiecesBreakFreeCut(t, start, i);
    } else {
      PiecesBreakFree(t, start, i + 1);
      PiecesPass(t, start, i);
    }
  }

  lemma {:induction false} PiecesBreakFreeCut(t: string, start: nat, i: nat)
    requires start <= i < |t| && BreakLen(t, i) > 0
    requires forall j :: start <= j < i ==> BreakLen(t, j) == 0
    ensures forall p :: p in Pieces(t, start, i) ==> BreakFree(p)
    decreases |t| - i, 0
  {
    StretchBreakFree(t, start, i);
    PiecesBreakFree(t, i + BreakLen(t, i), i + BreakLen(t, i));
    BreakFreeStep(t, start, i);
  }

  /** A match at `i` puts a break-free piece in front of the rest's pieces. */
  lemma BreakFreeStep(t: string, start: nat, i: nat)
    requires start <= i < |t| && BreakLen(t, i) > 0
    requires BreakFree(t[start..i])
    requires forall p :: p in Pieces(t, i + BreakLen(t, i), i + BreakLen(t, i)) ==> BreakFree(p)
    ensures forall p :: p in Pieces(t, start, i) ==> BreakFree(p)
  {
    PiecesCut(t, start, i);
  }

  lemma StretchBreakFree(t: string, start: nat, i: nat)
    requires start <= i <= |t|
    requires forall j :: start <= j < i ==> BreakLen(t, j) == 0
    ensures BreakFree(t[start..i])
  {
    forall j | 0 <= j <= i - start ensures BreakLen(t[start..i], j) == 0 {
      if BreakLen(t[start..i], j) > 0 {
        BreakTransfer(t, start, i, j);
      }
    }
  }

  /** `re.split(r'\n\s*\n', "a\n \nb")` is `["a", "b"]`: whitespace between the line feeds
      still separates paragraphs. */
  lemma SpacedBlankLineSplits()
    ensures Pieces("a\n \nb", 0, 0) == ["a", "b"]
  {
    var t := "a\n \nb";
    assert t[0] == 'a' && t[1] == '\n' && t[2] == ' ' && t[3] == '\n' && t[4] == 'b';
    assert BreakLen(t, 0) == 0;
    PiecesPass(t, 0, 0);
    assert RunLastFeed(t, 4, 4) == 4;
    assert RunLastFeed(t, 3, 2) == 4;
    assert RunLastFeed(t, 2, 2) == 4;
    assert BreakLen(t, 1) == 3;
    PiecesCut(t, 0, 1);
    assert BreakLen(t, 4) == 0;
    PiecesPass(t, 4, 4);
    PiecesEnd(t, 4);
    assert t[0..1] == "a" && t[4..] == "b";
  }

  /** Text that holds no blank line and does not end in a line feed: what a paragraph is. */
  predicate Unbroken(p: string) {
    && !Contains(p, BlankLine)
    && (|p| == 0 || p[|p| - 1] != '\n')
  }

  /** Every piece between two matches is free of a double line feed. */
  lemma {:induction false} PiecesHaveNoBlankLine(t: string, start: nat, i: nat)
    requires start <= i <= |t|
    requires forall j :: start <= j < i ==> BreakLen(t, j) == 0
    ensures NoneBlank(Pieces(t, start, i))
    decreases |t| - i
  {
    if i == |t| {
      LastPieceNoBlank(t, start);
    } else if BreakLen(t, i) > 0 {
      var k := BreakLen(t, i);
      PiecesHaveNoBlankLine(t, i + k, i + k);
      BrokenPieceNoBlank(t, start, i);
    } else {
      PiecesHaveNoBlankLine(t, start, i + 1);
      assert Pieces(t, start, i) == Pieces(t, start, i + 1);
    }
  }

  lemma LastPieceNoBlank(t: string, start: nat)
    requires start <= |t|
    requires forall j :: start <= j < |t| ==> BreakLen(t, j) == 0
    ensures NoneBlank(Pieces(t, start, |t|))
  {
    NoBlankLineBetween(t, start, |t|);
    assert t[start..] == t[start..|t|];
  }

  lemma BrokenPieceNoBlank(t: string, start: nat, i: nat)
    requires start <= i < |t| && BreakLen(t, i) > 0
    requires forall j :: start <= j < i ==> BreakLen(t, j) == 0
    requires NoneBlank(Pieces(t, i + BreakLen(t, i), i + BreakLen(t, i)))
    ensures NoneBlank(Pieces(t, start, i))
  {
    var k := BreakLen(t, i);
    NoBlankLineBetween(t, start, i);
    NoBlankLineCons(t[start..i], Pieces(t, i + k, i + k));
  }

  /** No piece holds a double line feed. */
  predicate NoneBlank(ps: seq<string>) {
    forall k :: 0 <= k < |ps| ==> !Contains(ps[k], BlankLine)
  }

  lemma NoBlankLineCons(p: string, ps: seq<string>)
    requires !Contains(p, BlankLine) && NoneBlank(ps)
    ensures NoneBlank([p] + ps)
  {
    forall k | 0 < k < |[p] + ps| ensures !Contains(([p] + ps)[k], BlankLine) {
      assert ([p] + ps)[k] == ps[k - 1];
    }
  }

  /** A stretch in which no break starts holds no double line feed. */
  lemma NoBlankLineBetween(t: string, start: nat, i: nat)
    requires start <= i <= |t|
    requires forall j :: start <= j < i ==> BreakLen(t, j) == 0
    ensures !Contains(t[start..i], BlankLine)
  {
    var s := t[start..i];
    if Contains(s, BlankLine) {
      var j :| 0 <= j <= |s| - 2 && OccursAt(s, BlankLine, j);
      assert s[j..j + 2] == BlankLine;
      assert t[start + j] == s[j] == '\n' && t[start + j + 1] == s[j + 1] == '\n';
      DoubleLineFeedBreaks(t, start + j);
    }
  }

  /** A substring of text without a double line feed has none either. */
  lemma SubstringNoBlankLine(s: string, r: string, i: nat)
    requires OccursAt(s, r, i) && !Contains(s, BlankLine)
    ensures !Contains(r, BlankLine)
  {
    if Contains(r, BlankLine) {
      var j :| 0 <= j <= |r| - 2 && OccursAt(r, BlankLine, j);
      assert r[j] == s[i + j] && r[j + 1] == s[i + j + 1];
      assert s[i + j..i + j + 2] == BlankLine;
      assert OccursAt(s, BlankLine, i + j);
    }
  }

  /** Every paragraph is unbroken. */
  lemma ParagraphsUnbroken(t: string)
    ensures forall k :: 0 <= k < |Paragraphs(t)| ==> Unbroken(Paragraphs(t)[k])
  {
    var pieces := Pieces(t, 0, 0);
    PiecesHaveNoBlankLine(t, 0, 0);
    forall k | 0 <= k < |pieces| ensures Unbroken(Paragraphs(t)[k]) {
      var p := Strip(pieces[k]);
      var i :| 0 <= i <= |pieces[k]| - |p| && OccursAt(pieces[k], p, i);
      SubstringNoBlankLine(pieces[k], p, i);
      assert |p| > 0 ==> !IsSpace(p[|p| - 1]);
    }
  }

  // ---- undoing a join with a blank line ----

  lemma {:induction false} SplitUnbroken(p: string)
    requires !Contains(p, BlankLine)
    ensures Split(p, BlankLine) == [p]
    decreases |p|
  {
    if |p| >= 2 {
      assert !OccursAt(p, BlankLine, 0);
      assert p[..2] != BlankLine;
      NoBlankLineTail(p);
      SplitUnbroken(p[1..]);
      assert [p[0]] + p[1..] == p;
    }
  }

  lemma NoBlankLineTail(p: string)
    requires |p| > 0 && !Contains(p, BlankLine)
    ensures !Contains(p[1..], BlankLine)
  {
    if Contains(p[1..], BlankLine) {
      var j :| 0 <= j <= |p[1..]| - 2 && OccursAt(p[1..], BlankLine, j);
      assert p[1..][j..j + 2] == p[j + 1..j + 3];
      assert OccursAt(p, BlankLine, j + 1);
    }
  }

  lemma {:induction false} SplitFirst(p: string, u: string)
    requires Unbroken(p)
    ensures Split(p + BlankLine + u, BlankLine) == [p] + Split(u, BlankLine)
    decreases |p|
  {
    var t := p + BlankLine + u;
    if |p| == 0 {
      assert t[..2] == BlankLine;
      assert t[2..] == u;
    } else {
      assert t[..2] != BlankLine by {
        if |p| >= 2 {
          assert t[..2] == p[..2];
          assert !OccursAt(p, BlankLine, 0);
        } else {
          assert t[0] == p[0] && p[0] != '\n';
        }
      }
      NoBlankLineTail(p);
      assert Unbroken(p[1..]);
      assert t[1..] == p[1..] + BlankLine + u;
      SplitFirst(p[1..], u);
      assert [p[0]] + p[1..] == p;
    }
  }

  /** Unbroken paragraphs joined with a blank line split back into themselves. */
  lemma {:induction false} SplitJoin(ps: seq<string>)
    requires |ps| >= 1
    requires forall k :: 0 <= k < |ps| ==> Unbroken(ps[k])
    ensures Split(Join(ps, BlankLine), BlankLine) == ps
    decreases |ps|
  {
    if |ps| == 1 {
      SplitUnbroken(ps[0]);
    } else {
      SplitJoin(ps[1..]);
      SplitFirst(ps[0], Join(ps[1..], BlankLine));
      assert ps == [ps[0]] + ps[1..];
    }
  }
}
