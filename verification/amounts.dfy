/** `extract_amount` of `utils.py`. Commas are removed, then every match of
    `(\d+(?:\.\d+)?)(?:\s*)?(万元|元)` is read left to right, and the results of the Chinese-numeral
    pass follow. */
module Amounts {
  import opened Wrappers
  import opened Strings

  /** 万元 (ten thousand yuan) or 元. */
  datatype Unit = Wan | Yuan

  function UnitText(u: Unit): string {
    match u
    case Wan => "\U{4E07}\U{5143}"
    case Yuan => "\U{5143}"
  }

  /** One match: integer digits, fraction digits (empty when there is no '.'), the whitespace
      before the unit, the unit. */
  datatype AmountMatch = AmountMatch(whole: string, frac: string, gap: string, unit: Unit)

  predicate AllSpace(s: string) {
    forall i :: 0 <= i < |s| ==> IsSpace(s[i])
  }

  predicate WellFormed(m: AmountMatch) {
    |m.whole| > 0 && AllDigits(m.whole) && AllDigits(m.frac) && AllSpace(m.gap)
  }

  /** The text a match covers. */
  function Text(m: AmountMatch): string {
    m.whole + (if |m.frac| > 0 then "." + m.frac else "") + m.gap + UnitText(m.unit)
  }

  function Pow10(n: nat): (p: nat)
    ensures p > 0
  {
    if n == 0 then 1 else 10 * Pow10(n - 1)
  }

  /** `float(num_str)`, in exact arithmetic. */
  function NumberValue(whole: string, frac: string): real
    requires AllDigits(whole) && AllDigits(frac)
  {
    (Decimal(whole) as real) + (Decimal(frac) as real) / (Pow10(|frac|) as real)
  }

  /** The amount in yuan: ×10000 for 万元. */
  function Value(m: AmountMatch): (v: real)
    requires WellFormed(m)
    ensures v >= 0.0
  {
    NumberValue(m.whole, m.frac) * (if m.unit == Wan then 10000.0 else 1.0)
  }

  /** The digits of `(?:\.\d+)?` after `a` integer digits: greedy, 0 when there is no
      '.' followed by a digit. */
  function FracDigits(t: string, a: nat): (b: nat)
    requires a <= |t|
    ensures b > 0 ==> a + 1 + b <= |t| && t[a] == '.'
  {
    if a + 1 < |t| && t[a] == '.' && IsDigit(t[a + 1]) then Leading(t[a + 1..], IsDigit) else 0
  }

  /** Where `\d+(?:\.\d+)?` ends, given `a` integer digits. */
  function NumberEnd(t: string, a: nat): (p: nat)
    requires a <= |t|
    ensures FracDigits(t, a) > 0 ==> p == a + 1 + FracDigits(t, a)
    ensures FracDigits(t, a) == 0 ==> p == a
  {
    var b := FracDigits(t, a);
    if b > 0 then a + 1 + b else a
  }

  /** `万元|元` at the start of `t`. */
  function UnitAt(t: string): (r: Option<Unit>)
    ensures r.Some? ==> |UnitText(r.value)| <= |t| && t[..|UnitText(r.value)|] == UnitText(r.value)
  {
    if |t| >= 2 && t[0] == '\U{4E07}' && t[1] == '\U{5143}' then Some(Wan)
    else if |t| >= 1 && t[0] == '\U{5143}' then Some(Yuan)
    else None
  }

  /** The pattern anchored at the start of `t`. `\d+` and the fraction are greedy, and
      backtracking cannot help: a shorter digit run leaves a digit where the unit must be. */
  function AmountAt(t: string): (r: Option<AmountMatch>)
    ensures r.Some? ==> |t| > 0 && IsDigit(t[0])
  {
    var a := Leading(t, IsDigit);
    var b := FracDigits(t, a);
    var p := NumberEnd(t, a);
    var q := p + Leading(t[p..], IsSpace);
    if a == 0 then None
    else
      match UnitAt(t[q..])
      case None => None
      case Some(u) => Some(AmountMatch(t[..a], t[p - b..p], t[p..q], u))
  }

  /** A match is well formed and is the start of the text it was found in. */
  lemma AmountAtPrefix(t: string)
    ensures AmountAt(t).Some? ==> var m := AmountAt(t).value;
      WellFormed(m) && 0 < |Text(m)| <= |t| && t[..|Text(m)|] == Text(m)
  {
    var a := Leading(t, IsDigit);
    var b := FracDigits(t, a);
    var p := NumberEnd(t, a);
    var q := p + Leading(t[p..], IsSpace);
    if a > 0 && UnitAt(t[q..]).Some? {
      var u := UnitAt(t[q..]).value;
      assert Stages(t, a, b, p, q, u);
      AmountAtParts(t, a, b, p, q, u);
      MatchedText(t, a, b, p, q, u);
    }
  }

  /** The pieces the matcher found, put back together, are the start of the text. */
  lemma MatchedText(t: string, a: nat, b: nat, p: nat, q: nat, u: Unit)
    requires Stages(t, a, b, p, q, u)
    ensures var m := AmountMatch(t[..a], t[p - b..p], t[p..q], u);
      WellFormed(m) && |Text(m)| <= |t| && t[..|Text(m)|] == Text(m)
  {
    MatchedWellFormed(t, a, b, p, q, u);
    StagesShape(t, a, b, p, q, u);
    UnitPiece(t, q, u);
    SliceJoin(t, a, b, p, q, q + |UnitText(u)|);
  }

  lemma StagesShape(t: string, a: nat, b: nat, p: nat, q: nat, u: Unit)
    requires Stages(t, a, b, p, q, u)
    ensures a <= p <= q <= |t|
    ensures b > 0 ==> p == a + 1 + b && t[a] == '.'
    ensures b == 0 ==> p == a
  {
  }

  lemma UnitPiece(t: string, q: nat, u: Unit)
    requires q <= |t| && UnitAt(t[q..]) == Some(u)
    ensures q + |UnitText(u)| <= |t| && t[q..q + |UnitText(u)|] == UnitText(u)
  {
    var v := t[q..];
    assert v[..|UnitText(u)|] == UnitText(u);
    assert v[..|UnitText(u)|] == t[q..q + |UnitText(u)|];
  }

  lemma MatchedWellFormed(t: string, a: nat, b: nat, p: nat, q: nat, u: Unit)
    requires Stages(t, a, b, p, q, u)
    ensures WellFormed(AmountMatch(t[..a], t[p - b..p], t[p..q], u))
  {
    assert AllDigits(t[..a]) by {
      forall i | 0 <= i < a ensures IsDigit(t[..a][i]) {
        assert t[..a][i] == t[i];
      }
    }
    FracPiece(t, a, b);
    assert AllDigits(t[p - b..p]) by {
      if b == 0 { assert t[p - b..p] == []; }
    }
    SpacePiece(t, p, q);
  }

  lemma SliceJoin(t: string, a: nat, b: nat, p: nat, q: nat, n: nat)
    requires a <= p <= q <= n <= |t|
    requires b > 0 ==> p == a + 1 + b && t[a] == '.'
    requires b == 0 ==> p == a
    ensures t[..n] == t[..a] + (if b > 0 then "." + t[p - b..p] else "") + t[p..q] + t[q..n]
  {
    if b > 0 {
      assert t[..p] == t[..a] + [t[a]] + t[a + 1..p];
    }
    assert t[..n] == t[..p] + t[p..q] + t[q..n];
  }

  lemma FracPiece(t: string, a: nat, b: nat)
    requires a <= |t| && b == FracDigits(t, a)
    ensures b > 0 ==> AllDigits(t[a + 1..a + 1 + b])
  {
    if b > 0 {
      var f := t[a + 1..];
      assert forall i :: 0 <= i < b ==> IsDigit(f[i]);
      assert t[a + 1..a + 1 + b] == f[..b];
    }
  }

  lemma SpacePiece(t: string, p: nat, q: nat)
    requires p <= q <= |t| && q - p == Leading(t[p..], IsSpace)
    ensures AllSpace(t[p..q])
  {
    var g := t[p..];
    assert forall i :: 0 <= i < q - p ==> IsSpace(g[i]);
    assert t[p..q] == g[..q - p];
  }

  /** `re.finditer`: try each position in turn, resuming after each match. Every amount found
      is non-negative, each needs at least one character of its own, and a text without
      digits has none. */
  function Scan(t: string): (r: seq<real>)
    ensures |r| <= |t|
    ensures forall k :: 0 <= k < |r| ==> r[k] >= 0.0
    ensures (forall i :: 0 <= i < |t| ==> !IsDigit(t[i])) ==> r == []
    decreases |t|
  {
    if |t| == 0 then []
    else
      match AmountAt(t)
      case Some(m) =>
        AmountAtPrefix(t);
        var rest := Scan(t[|Text(m)|..]);
        NonNegativeCons(Value(m), rest);
        [Value(m)] + rest
      case None =>
        assert forall i :: 0 <= i < |t| - 1 ==> t[1..][i] == t[i + 1];
        Scan(t[1..])
  }

  lemma NonNegativeCons(x: real, rest: seq<real>)
    requires x >= 0.0 && forall k :: 0 <= k < |rest| ==> rest[k] >= 0.0
    ensures forall k :: 0 <= k < |[x] + rest| ==> ([x] + rest)[k] >= 0.0
  {
    assert forall k :: 0 < k < |[x] + rest| ==> ([x] + rest)[k] == rest[k - 1];
  }

  /** `text.replace(",", "")` (the ASCII comma only). */
  function RemoveCommas(t: string): (r: string)
    ensures forall i :: 0 <= i < |r| ==> r[i] != ','
    ensures |r| <= |t|
  {
    if |t| == 0 then ""
    else
      var rest := RemoveCommas(t[1..]);
      if t[0] == ',' then rest
      else
        assert forall i :: 0 < i < |[t[0]] + rest| ==> ([t[0]] + rest)[i] == rest[i - 1];
        [t[0]] + rest
  }

  /** The Chinese-numeral pass of `extract_amount` (`cn2an` over the matches of the capital-numeral
      pattern), applied to the comma-free text. It is not modelled and is taken as given. */
  type Numerals = string -> seq<real>

  /** `extract_amount`: the Arabic amounts in text order, then the results of the Chinese-numeral
      pass, or None when both are empty. */
  function ExtractAmount(t: string, cn: Numerals): (r: Option<seq<real>>)
    ensures r.None? <==> Scan(RemoveCommas(t)) == [] && cn(RemoveCommas(t)) == []
    ensures r.Some? ==> |r.value| > 0
    ensures r.Some? ==> var arabic := Scan(RemoveCommas(t));
      |arabic| <= |r.value| && r.value[..|arabic|] == arabic
    ensures r.Some? ==> r.value[|Scan(RemoveCommas(t))|..] == cn(RemoveCommas(t))
  {
    var results := Scan(RemoveCommas(t)) + cn(RemoveCommas(t));
    if |results| > 0 then Some(results) else None
  }

  /** The number an amount starting at the first character of `t` carries: the greedy
      `\d+(?:\.\d+)?` there, read as a decimal. */
  function NumberAt(t: string): (x: real)
    requires |t| > 0 && IsDigit(t[0])
    ensures x >= 0.0
  {
    var a := Leading(t, IsDigit);
    var b := FracDigits(t, a);
    var p := NumberEnd(t, a);
    FracPiece(t, a, b);
    assert AllDigits(t[..a]) by {
      forall i | 0 <= i < a ensures IsDigit(t[..a][i]) { }
    }
    NumberValue(t[..a], t[p - b..p])
  }

  /** `i` is the position of the first digit of `t`. */
  predicate FirstDigitAt(t: string, i: nat) {
    i < |t| && IsDigit(t[i]) && forall j :: 0 <= j < i ==> !IsDigit(t[j])
  }

  /** `re.findall(r'(\d+(?:\.\d+)?)', t)[0]` read by `float`: the number at the first digit of the
      text, or None when there is no digit. */
  function FirstNumber(t: string): (r: Option<real>)
    ensures r.None? <==> forall i :: 0 <= i < |t| ==> !IsDigit(t[i])
  {
    if |t| == 0 then None
    else if IsDigit(t[0]) then Some(NumberAt(t))
    else
      assert forall i :: 0 < i < |t| ==> t[i] == t[1..][i - 1];
      FirstNumber(t[1..])
  }

  /** The number `FirstNumber` reports is the one at the first digit. */
  lemma {:induction false} FirstNumberAt(t: string, i: nat)
    requires FirstDigitAt(t, i)
    ensures FirstNumber(t) == Some(NumberAt(t[i..]))
    decreases i
  {
    if i == 0 {
      assert t[0..] == t;
    } else {
      assert FirstDigitAt(t[1..], i - 1) by {
        forall j | 0 <= j < i - 1 ensures !IsDigit(t[1..][j]) { assert t[1..][j] == t[j + 1]; }
      }
      FirstNumberAt(t[1..], i - 1);
      assert t[1..][i - 1..] == t[i..];
    }
  }

  // ---- reading back what was written ----

  lemma {:induction false} LeadingAppend(a: string, b: string, p: char -> bool)
    requires forall i :: 0 <= i < |a| ==> p(a[i])
    requires |b| == 0 || !p(b[0])
    ensures Leading(a + b, p) == |a|
    decreases |a|
  {
    if |a| > 0 {
      assert (a + b)[1..] == a[1..] + b;
      LeadingAppend(a[1..], b, p);
    } else {
      assert a + b == b;
    }
  }

  lemma FracDigitsOf(m: AmountMatch, t: string, rest: string)
    requires WellFormed(m) && t == Text(m) + rest
    ensures FracDigits(t, |m.whole|) == |m.frac|
  {
    var afterFrac := m.gap + UnitText(m.unit) + rest;
    assert |afterFrac| > 0 && !IsDigit(afterFrac[0]) && afterFrac[0] != '.' by {
      if |m.gap| == 0 { assert afterFrac[0] == UnitText(m.unit)[0]; } else { assert afterFrac[0] == m.gap[0]; }
    }
    if |m.frac| > 0 {
      assert t == m.whole + "." + m.frac + afterFrac;
      FracDigitsPresent(m.whole, m.frac, afterFrac, t);
    } else {
      assert t == m.whole + afterFrac;
      FracDigitsAbsent(m.whole, afterFrac, t);
    }
  }

  lemma FracDigitsPresent(w: string, f: string, after: string, t: string)
    requires |f| > 0 && AllDigits(f) && |after| > 0 && !IsDigit(after[0])
    requires t == w + "." + f + after
    ensures FracDigits(t, |w|) == |f|
  {
    var a := |w|;
    assert t[a] == '.' && t[a + 1] == f[0];
    assert t[a + 1..] == f + after;
    LeadingAppend(f, after, IsDigit);
  }

  lemma FracDigitsAbsent(w: string, after: string, t: string)
    requires |after| > 0 && after[0] != '.'
    requires t == w + after
    ensures FracDigits(t, |w|) == 0
  {
    assert t[|w|] == after[0];
  }

  /** What the stages of `AmountAt` report on `t`: `a` integer digits, `b` fraction digits,
      the number ending at `p`, whitespace up to `q`, then the unit `u`. */
  predicate Stages(t: string, a: nat, b: nat, p: nat, q: nat, u: Unit) {
    && 0 < a == Leading(t, IsDigit) && b == FracDigits(t, a) && p == NumberEnd(t, a)
    && p <= q <= |t| && q - p == Leading(t[p..], IsSpace) && UnitAt(t[q..]) == Some(u)
  }

  lemma StagesWhole(t: string, a: nat, b: nat, p: nat, q: nat, u: Unit)
    requires Stages(t, a, b, p, q, u)
    ensures AmountAt(t).Some? && AmountAt(t).value.whole == t[..a] && AmountAt(t).value.unit == u
  {
  }

  lemma StagesFrac(t: string, a: nat, b: nat, p: nat, q: nat, u: Unit)
    requires Stages(t, a, b, p, q, u)
    ensures AmountAt(t).Some? && AmountAt(t).value.frac == t[p - b..p]
  {
  }

  lemma StagesGap(t: string, a: nat, b: nat, p: nat, q: nat, u: Unit)
    requires Stages(t, a, b, p, q, u)
    ensures AmountAt(t).Some? && AmountAt(t).value.gap == t[p..q]
  {
  }

  /** `AmountAt` assembles what its stages report. */
  lemma AmountAtParts(t: string, a: nat, b: nat, p: nat, q: nat, u: Unit)
    requires Stages(t, a, b, p, q, u)
    ensures AmountAt(t) == Some(AmountMatch(t[..a], t[p - b..p], t[p..q], u))
  {
    StagesWhole(t, a, b, p, q, u);
    StagesFrac(t, a, b, p, q, u);
    StagesGap(t, a, b, p, q, u);
  }

  /** The text of a match, cut where `AmountAt` cuts it. */
  lemma TextPieces(m: AmountMatch, rest: string, t: string, a: nat, b: nat, p: nat, q: nat)
    requires WellFormed(m) && t == Text(m) + rest
    requires a == |m.whole| && b == |m.frac| && p == (if b > 0 then a + 1 + b else a) && q == p + |m.gap|
    ensures q <= |t| && t[..a] == m.whole && t[p - b..p] == m.frac && t[p..q] == m.gap
    ensures t[p..] == m.gap + (UnitText(m.unit) + rest) && t[q..] == UnitText(m.unit) + rest
  {
    var fracText := if |m.frac| > 0 then "." + m.frac else "";
    assert Text(m) + rest == m.whole + fracText + m.gap + (UnitText(m.unit) + rest);
  }

  lemma WholeDigitsOf(m: AmountMatch, rest: string)
    requires WellFormed(m)
    ensures Leading(Text(m) + rest, IsDigit) == |m.whole|
  {
    var fracText := if |m.frac| > 0 then "." + m.frac else "";
    var afterWhole := fracText + m.gap + UnitText(m.unit) + rest;
    assert Text(m) + rest == m.whole + afterWhole;
    assert !IsDigit(afterWhole[0]) by {
      if |m.frac| == 0 && |m.gap| == 0 { assert afterWhole[0] == UnitText(m.unit)[0]; }
      else if |m.frac| == 0 { assert afterWhole[0] == m.gap[0]; }
    }
    LeadingAppend(m.whole, afterWhole, IsDigit);
  }

  lemma GapOf(m: AmountMatch, rest: string, g: string, u: string)
    requires WellFormed(m)
    requires g == m.gap + (UnitText(m.unit) + rest) && u == UnitText(m.unit) + rest
    ensures Leading(g, IsSpace) == |m.gap|
    ensures UnitAt(u) == Some(m.unit)
  {
    assert !IsSpace(UnitText(m.unit)[0]);
    LeadingAppend(m.gap, UnitText(m.unit) + rest, IsSpace);
  }

  /** A well-formed amount written out is read back as itself, whatever follows it. */
  lemma AmountAtText(m: AmountMatch, rest: string)
    requires WellFormed(m)
    ensures AmountAt(Text(m) + rest) == Some(m)
  {
    var t := Text(m) + rest;
    var a, b := |m.whole|, |m.frac|;
    var p := if b > 0 then a + 1 + b else a;
    var q := p + |m.gap|;
    TextPieces(m, rest, t, a, b, p, q);
    assert AmountMatch(t[..a], t[p - b..p], t[p..q], m.unit) == m;
    TextStages(m, rest, t, a, b, p, q);
    AmountAtParts(t, a, b, p, q, m.unit);
  }

  /** The stages of `AmountAt` on a written-out amount stop where its pieces end. */
  lemma TextStages(m: AmountMatch, rest: string, t: string, a: nat, b: nat, p: nat, q: nat)
    requires WellFormed(m) && t == Text(m) + rest
    requires a == |m.whole| && b == |m.frac| && p == (if b > 0 then a + 1 + b else a) && q == p + |m.gap|
    ensures Stages(t, a, b, p, q, m.unit)
  {
    TextPieces(m, rest, t, a, b, p, q);
    WholeDigitsOf(m, rest);
    assert a == Leading(t, IsDigit);
    FracDigitsOf(m, t, rest);
    assert b == FracDigits(t, a) && p == NumberEnd(t, a);
    GapOf(m, rest, t[p..], t[q..]);
  }

  /** The number of a written-out amount is the number `NumberAt` reads there. */
  lemma NumberAtText(m: AmountMatch, rest: string)
    requires WellFormed(m)
    ensures |Text(m) + rest| > 0 && IsDigit((Text(m) + rest)[0])
    ensures NumberAt(Text(m) + rest) == NumberValue(m.whole, m.frac)
  {
    var t := Text(m) + rest;
    var a, b := |m.whole|, |m.frac|;
    var p := if b > 0 then a + 1 + b else a;
    TextPieces(m, rest, t, a, b, p, p + |m.gap|);
    assert t[0] == m.whole[0];
    WholeDigitsOf(m, rest);
    FracDigitsOf(m, t, rest);
    assert NumberEnd(t, a) == p;
  }

  /** Digit-free text before a number is skipped. */
  lemma FirstNumberSkips(pre: string, u: string)
    requires forall i :: 0 <= i < |pre| ==> !IsDigit(pre[i])
    requires |u| > 0 && IsDigit(u[0])
    ensures FirstNumber(pre + u) == Some(NumberAt(u))
  {
    var t := pre + u;
    assert FirstDigitAt(t, |pre|) by {
      forall j | 0 <= j < |pre| ensures !IsDigit(t[j]) { assert t[j] == pre[j]; }
    }
    FirstNumberAt(t, |pre|);
    assert t[|pre|..] == u;
  }

  /** The fallback number reader and the amount reader agree on the number of an amount: after
      digit-free text, the first number is the amount's value before its unit is applied. */
  lemma FirstNumberOfAmount(pre: string, m: AmountMatch, rest: string)
    requires WellFormed(m)
    requires forall i :: 0 <= i < |pre| ==> !IsDigit(pre[i])
    ensures FirstNumber(pre + Text(m) + rest) == Some(NumberValue(m.whole, m.frac))
  {
    NumberAtText(m, rest);
    FirstNumberSkips(pre, Text(m) + rest);
    assert pre + Text(m) + rest == pre + (Text(m) + rest);
  }

  /** Text without digits contributes nothing and is skipped. */
  lemma {:induction false} ScanSkipsNonDigits(filler: string, rest: string)
    requires forall i :: 0 <= i < |filler| ==> !IsDigit(filler[i])
    ensures Scan(filler + rest) == Scan(rest)
    decreases |filler|
  {
    if |filler| > 0 {
      var t := filler + rest;
      assert Leading(t, IsDigit) == 0;
      assert t[1..] == filler[1..] + rest;
      ScanSkipsNonDigits(filler[1..], rest);
    } else {
      assert filler + rest == rest;
    }
  }

  /** Amounts written one after another, each followed by a digit-free separator. */
  function Render(ms: seq<AmountMatch>, sep: string): string {
    if |ms| == 0 then "" else Text(ms[0]) + sep + Render(ms[1..], sep)
  }

  function Values(ms: seq<AmountMatch>): seq<real>
    requires forall k :: 0 <= k < |ms| ==> WellFormed(ms[k])
  {
    if |ms| == 0 then [] else [Value(ms[0])] + Values(ms[1..])
  }

  /** Reading rendered amounts gives back their values, in order. */
  lemma {:induction false} ScanRender(ms: seq<AmountMatch>, sep: string)
    requires forall k :: 0 <= k < |ms| ==> WellFormed(ms[k])
    requires forall i :: 0 <= i < |sep| ==> !IsDigit(sep[i])
    ensures Scan(Render(ms, sep)) == Values(ms)
    decreases |ms|
  {
    if |ms| > 0 {
      var t := Render(ms, sep);
      var rest := sep + Render(ms[1..], sep);
      assert t == Text(ms[0]) + rest;
      AmountAtText(ms[0], rest);
      assert t[|Text(ms[0])|..] == rest;
      ScanAtMatch(t);
      ScanRender(ms[1..], sep);
      ScanSkipsNonDigits(sep, Render(ms[1..], sep));
    }
  }

  lemma ScanAtMatch(t: string)
    requires AmountAt(t).Some?
    ensures WellFormed(AmountAt(t).value) && 0 < |Text(AmountAt(t).value)| <= |t|
    ensures Scan(t) == [Value(AmountAt(t).value)] + Scan(t[|Text(AmountAt(t).value)|..])
  {
    AmountAtPrefix(t);
  }

  /** `95万元` and `2.8万元`, as in the repository's sample text, read 950000 and 28000. */
  lemma SampleAmounts()
    ensures Scan(Render(SampleMatches(), "\U{3001}")) == [950000.0, 28000.0]
  {
    var ms := SampleMatches();
    SampleValues();
    ScanRender(ms, "\U{3001}");
  }

  function SampleMatches(): (ms: seq<AmountMatch>)
    ensures forall k :: 0 <= k < |ms| ==> WellFormed(ms[k])
  {
    var ms := [AmountMatch("95", "", "", Wan), AmountMatch("2", "8", "", Wan)];
    assert WellFormed(ms[0]) && WellFormed(ms[1]);
    ms
  }

  lemma SampleValues()
    ensures Values(SampleMatches()) == [950000.0, 28000.0]
  {
    var ms := SampleMatches();
    DecimalTwo("95");
    assert Decimal("") == 0;
    assert Decimal("2") == 2 && Decimal("8") == 8 by { assert "2"[..0] == "" && "8"[..0] == ""; }
    assert Value(ms[0]) == 950000.0;
    assert Value(ms[1]) == 28000.0;
    assert ms[1..][1..] == [];
  }

  /** Commas inside a number are dropped before matching: `1,200元` reads 1200. */
  lemma CommaGrouping(cn: Numerals)
    requires cn("1200\U{5143}") == []
    ensures ExtractAmount("1,200\U{5143}", cn) == Some([1200.0])
  {
    var m := AmountMatch("1200", "", "", Yuan);
    CommaRemoved();
    TwelveHundred();
    ScanOne(m);
    ArabicOnly("1,200\U{5143}", cn, [1200.0]);
  }

  lemma TwelveHundred()
    ensures WellFormed(AmountMatch("1200", "", "", Yuan))
    ensures Value(AmountMatch("1200", "", "", Yuan)) == 1200.0
  {
    DecimalAppend2("12", "00");
    DecimalTwo("12");
    DecimalTwo("00");
    assert "12" + "00" == "1200";
    assert Decimal("") == 0;
  }

  lemma CommaRemoved()
    ensures RemoveCommas("1,200\U{5143}") == Text(AmountMatch("1200", "", "", Yuan)) == "1200\U{5143}"
  {
    var t := "1,200\U{5143}";
    assert t[1..] == ",200\U{5143}" && t[1..][1..] == "200\U{5143}";
    assert Text(AmountMatch("1200", "", "", Yuan)) == "1200\U{5143}";
  }

  /** With no Chinese-numeral results the answer is the Arabic amounts, when there are any. */
  lemma ArabicOnly(t: string, cn: Numerals, v: seq<real>)
    requires Scan(RemoveCommas(t)) == v && |v| > 0
    requires cn(RemoveCommas(t)) == []
    ensures ExtractAmount(t, cn) == Some(v)
  {
    assert v + [] == v;
  }

  lemma ScanOne(m: AmountMatch)
    requires WellFormed(m)
    ensures Scan(Text(m)) == [Value(m)]
  {
    AmountAtText(m, "");
    assert Text(m) + "" == Text(m);
    assert Text(m)[|Text(m)|..] == "";
  }

  /** No amount and no Chinese-numeral result: None, not an empty list. */
  lemma NothingFoundIsNone(t: string, cn: Numerals)
    requires forall i :: 0 <= i < |t| ==> !IsDigit(t[i])
    requires cn(RemoveCommas(t)) == []
    ensures ExtractAmount(t, cn) == None
  {
    var r := RemoveCommas(t);
    NoDigitsAfterRemoval(t);
    ScanSkipsNonDigits(r, "");
    assert r + "" == r;
  }

  lemma {:induction false} NoDigitsAfterRemoval(t: string)
    requires forall i :: 0 <= i < |t| ==> !IsDigit(t[i])
    ensures forall i :: 0 <= i < |RemoveCommas(t)| ==> !IsDigit(RemoveCommas(t)[i])
    decreases |t|
  {
    if |t| > 0 {
      NoDigitsAfterRemoval(t[1..]);
    }
  }

  /** Comma removal works piece by piece. */
  lemma {:induction false} RemoveCommasAppend(a: string, b: string)
    ensures RemoveCommas(a + b) == RemoveCommas(a) + RemoveCommas(b)
    decreases |a|
  {
    if |a| == 0 {
      assert a + b == b;
    } else {
      assert (a + b)[1..] == a[1..] + b;
      RemoveCommasAppend(a[1..], b);
    }
  }

  /** Text without commas is left as it is. */
  lemma {:induction false} RemoveCommasNone(s: string)
    requires forall i :: 0 <= i < |s| ==> s[i] != ','
    ensures RemoveCommas(s) == s
    decreases |s|
  {
    if |s| > 0 {
      RemoveCommasNone(s[1..]);
      assert [s[0]] + s[1..] == s;
    }
  }

  /** The text of an amount holds no comma. */
  lemma TextHasNoComma(m: AmountMatch)
    requires WellFormed(m)
    ensures forall i :: 0 <= i < |Text(m)| ==> Text(m)[i] != ','
  {
    var f := if |m.frac| > 0 then "." + m.frac else "";
    assert Text(m) == m.whole + f + m.gap + UnitText(m.unit);
    forall i | 0 <= i < |Text(m)| ensures Text(m)[i] != ',' {
      if i < |m.whole| {
        assert Text(m)[i] == m.whole[i];
      } else if i < |m.whole| + |f| {
        assert Text(m)[i] == f[i - |m.whole|];
      } else if i < |m.whole| + |f| + |m.gap| {
        assert Text(m)[i] == m.gap[i - |m.whole| - |f|];
      } else {
        assert Text(m)[i] == UnitText(m.unit)[i - |m.whole| - |f| - |m.gap|];
      }
    }
  }

  /** After text free of digits and commas, the first amount `extract_amount` reports is the
      first written one, whatever follows it and whatever the Chinese-numeral pass finds. */
  lemma FirstAmountAfter(pre: string, m: AmountMatch, rest: string, cn: Numerals)
    requires WellFormed(m)
    requires forall i :: 0 <= i < |pre| ==> !IsDigit(pre[i]) && pre[i] != ','
    ensures ExtractAmount(pre + Text(m) + rest, cn).Some?
    ensures ExtractAmount(pre + Text(m) + rest, cn).value[0] == Value(m)
  {
    var u := RemoveCommas(rest);
    var t := pre + Text(m) + rest;
    RemoveCommasAppend(pre + Text(m), rest);
    RemoveCommasAppend(pre, Text(m));
    RemoveCommasNone(pre);
    TextHasNoComma(m);
    RemoveCommasNone(Text(m));
    assert RemoveCommas(t) == pre + (Text(m) + u);
    ScanSkipsNonDigits(pre, Text(m) + u);
    AmountAtText(m, u);
    assert (Text(m) + u)[|Text(m)|..] == u;
    assert Scan(RemoveCommas(t))[0] == Value(m);
  }

  /** After digit-free text, a run of digits not followed by a fraction is the first number. */
  lemma FirstNumberOfDigits(pre: string, ds: string, post: string)
    requires forall i :: 0 <= i < |pre| ==> !IsDigit(pre[i])
    requires |ds| > 0 && AllDigits(ds)
    requires |post| == 0 || (!IsDigit(post[0]) && post[0] != '.')
    ensures FirstNumber(pre + ds + post) == Some(Decimal(ds) as real)
  {
    var u := ds + post;
    assert pre + ds + post == pre + u;
    NumberAtDigits(ds, post);
    FirstNumberSkips(pre, u);
  }

  /** The number read at a run of digits not followed by a fraction is the run's value. */
  lemma NumberAtDigits(ds: string, post: string)
    requires |ds| > 0 && AllDigits(ds)
    requires |post| == 0 || (!IsDigit(post[0]) && post[0] != '.')
    ensures |ds + post| > 0 && IsDigit((ds + post)[0])
    ensures NumberAt(ds + post) == Decimal(ds) as real
  {
    var u := ds + post;
    LeadingAppend(ds, post, IsDigit);
    assert u[..|ds|] == ds;
    assert FracDigits(u, |ds|) == 0 by {
      if |post| > 0 { assert u[|ds|] == post[0]; }
    }
    assert NumberEnd(u, |ds|) == |ds|;
    assert u[|ds|..|ds|] == "";
    assert Decimal("") == 0;
    assert NumberValue(ds, "") == Decimal(ds) as real;
  }

  /** Digits followed by 万 without 元 are not an amount. */
  lemma {:induction false} ScanDigitsWan(ds: string)
    requires AllDigits(ds)
    ensures Scan(ds + "\U{4E07}") == []
    decreases |ds|
  {
    var t := ds + "\U{4E07}";
    if |ds| == 0 {
      assert t == "\U{4E07}" + "";
      ScanSkipsNonDigits("\U{4E07}", "");
    } else {
      LeadingAppend(ds, "\U{4E07}", IsDigit);
      assert t[|ds|] == '\U{4E07}';
      assert FracDigits(t, |ds|) == 0;
      assert t[|ds|..] == "\U{4E07}";
      assert Leading("\U{4E07}", IsSpace) == 0;
      assert UnitAt("\U{4E07}").None?;
      assert AmountAt(t).None?;
      assert t[1..] == ds[1..] + "\U{4E07}";
      ScanDigitsWan(ds[1..]);
    }
  }

  /** `1,200万` loses its comma. */
  lemma CommaFreeWan()
    ensures RemoveCommas("1,200\U{4E07}") == "1200\U{4E07}"
  {
    var t := "1,200\U{4E07}";
    assert t[1..] == ",200\U{4E07}" && t[1..][1..] == "200\U{4E07}";
    RemoveCommasNone("200\U{4E07}");
  }

  // ---- the plain-number fallback of info_extractor.py ----

  /** The plain-number fallback: the first decimal number of the text, times 10000 when 万
      occurs anywhere in the text, or None when the text has no digit. */
  function Fallback(text: string): (r: Option<real>)
    ensures r.None? <==> forall i :: 0 <= i < |text| ==> !IsDigit(text[i])
  {
    match FirstNumber(text)
    case None => None
    case Some(x) => Some(ScaleByWan(x, text))
  }

  /** `x`, times 10000 when 万 occurs anywhere in the text. */
  function ScaleByWan(x: real, text: string): real {
    if Contains(text, "\U{4E07}") then x * 10000.0 else x
  }

  /** The fallback reads the first run of digits, so a number after digit-free text is read as
      written, scaled by 万 anywhere in the text. */
  lemma FallbackReadsDigits(t: string, pre: string, ds: string, post: string)
    requires t == pre + ds + post
    requires forall i :: 0 <= i < |pre| ==> !IsDigit(pre[i])
    requires |ds| > 0 && AllDigits(ds)
    requires |post| == 0 || (!IsDigit(post[0]) && post[0] != '.')
    ensures Fallback(t) == Some(ScaleByWan(Decimal(ds) as real, t))
  {
    var x := Decimal(ds) as real;
    FirstNumberOfDigits(pre, ds, post);
    FallbackOf(t, x);
  }

  lemma FallbackOf(t: string, x: real)
    requires FirstNumber(t) == Some(x)
    ensures Fallback(t) == Some(ScaleByWan(x, t))
  {
  }

  lemma WanGrouped()
    ensures Fallback("1,200\U{4E07}") == Some(10000.0)
  {
    var t := "1,200\U{4E07}";
    WanGroupedParts();
    FallbackReadsDigits(t, "", "1", ",200\U{4E07}");
  }

  lemma WanGroupedParts()
    ensures "1,200\U{4E07}" == "" + "1" + ",200\U{4E07}"
    ensures Contains("1,200\U{4E07}", "\U{4E07}")
    ensures Decimal("1") == 1
  {
    assert OccursAt("1,200\U{4E07}", "\U{4E07}", 5);
    assert "1"[..0] == "";
  }

}
