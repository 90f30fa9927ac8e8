/** The character-level similarity metrics of `similarity_detect.py`: normalised Levenshtein,
    character n-gram Jaccard, k-shingle Jaccard and the four-feature structure comparison. */
module Metrics {
  import opened Wrappers
  import opened Strings
  import Levenshtein

  lemma DivUnit(x: real, y: real)
    requires 0.0 <= x <= y && y > 0.0
    ensures 0.0 <= x / y <= 1.0
  {
  }

  lemma DivZero(x: real, y: real)
    requires y > 0.0
    ensures x / y == 0.0 <==> x == 0.0
  {
  }

  /** `levenshtein_similarity`: `1 - d / max(len)`, and 1 when both texts are empty. */
  function LevenshteinSimilarity(a: string, b: string): (r: real)
    ensures 0.0 <= r <= 1.0
    ensures r == 1.0 <==> a == b
  {
    var maxLen := if |a| >= |b| then |a| else |b|;
    if maxLen > 0 then
      var d := Levenshtein.Distance(a, b);
      Levenshtein.DistanceBound(a, b);
      Levenshtein.DistanceZeroIff(a, b);
      DivUnit(d as real, maxLen as real);
      DivZero(d as real, maxLen as real);
      1.0 - (d as real) / (maxLen as real)
    else
      1.0
  }

  lemma LevenshteinSymmetric(a: string, b: string)
    ensures LevenshteinSimilarity(a, b) == LevenshteinSimilarity(b, a)
  {
    Levenshtein.DistanceSymmetric(a, b);
  }

  /** The window of length `n` starting at `i`. */
  function Window(t: string, i: int, n: nat): string
    requires 0 <= i <= |t| - n
  {
    t[i..i + n]
  }

  /** `get_ngrams(text, n)` (and `get_shingles`): the set of all length-`n` windows. */
  function Grams(t: string, n: nat): set<string>
  {
    set i | 0 <= i <= |t| - n :: Window(t, i, n)
  }

  /** A text has windows of length `n` exactly when it is at least `n` long. */
  lemma GramsEmptyIff(t: string, n: nat)
    ensures Grams(t, n) == {} <==> |t| < n
  {
    if |t| >= n {
      assert Window(t, 0, n) in Grams(t, n);
    }
  }

  lemma SubsetCard<T>(x: set<T>, y: set<T>)
    requires x <= y
    ensures |x| <= |y|
  {
    assert y == x + (y - x);
  }

  /** `|A ∩ B| / |A ∪ B|`, or None where the source's division would have no divisor. */
  function Jaccard<T>(x: set<T>, y: set<T>): (r: Option<real>)
    ensures r.None? <==> x == {} && y == {}
    ensures r.Some? ==> 0.0 <= r.value <= 1.0
  {
    if |x + y| == 0 then
      assert forall e :: e in x ==> e in x + y;
      None
    else
      SubsetCard(x * y, x + y);
      Some((|x * y| as real) / (|x + y| as real))
  }

  /** `ngram_similarity`: Jaccard of the n-gram sets, 0 when both sets are empty. */
  function NgramSimilarity(a: string, b: string, n: nat): (r: real)
    ensures 0.0 <= r <= 1.0
  {
    Jaccard(Grams(a, n), Grams(b, n)).GetOr(0.0)
  }

  lemma NgramSymmetric(a: string, b: string, n: nat)
    ensures NgramSimilarity(a, b, n) == NgramSimilarity(b, a, n)
  {
    assert Grams(a, n) * Grams(b, n) == Grams(b, n) * Grams(a, n);
    assert Grams(a, n) + Grams(b, n) == Grams(b, n) + Grams(a, n);
  }

  /** Identical texts of at least `n` characters score 1. */
  lemma NgramIdentical(t: string, n: nat)
    requires |t| >= n
    ensures NgramSimilarity(t, t, n) == 1.0
  {
    GramsEmptyIff(t, n);
    var g := Grams(t, n);
    assert g * g == g && g + g == g;
  }

  /** Two texts shorter than `n` score 0, even when they are identical. */
  lemma NgramShortTexts(a: string, b: string, n: nat)
    requires |a| < n && |b| < n
    ensures NgramSimilarity(a, b, n) == 0.0
  {
    GramsEmptyIff(a, n);
    GramsEmptyIff(b, n);
  }

  /** The failure `shingling_similarity` raises. */
  datatype MetricError = ZeroDivision

  /** `shingling_similarity`: the same Jaccard index with no guard on the union, so two
      texts shorter than `k` raise a division by zero. */
  function ShingleSimilarity(a: string, b: string, k: nat): (r: Result<real, MetricError>)
    ensures r.Failure? <==> |a| < k && |b| < k
    ensures r.Success? ==> 0.0 <= r.value <= 1.0
  {
    GramsEmptyIff(a, k);
    GramsEmptyIff(b, k);
    match Jaccard(Grams(a, k), Grams(b, k))
    case Some(v) => Success(v)
    case None => Failure(ZeroDivision)
  }

  lemma ShingleIdentical(t: string, k: nat)
    requires |t| >= k
    ensures ShingleSimilarity(t, t, k) == Success(1.0)
  {
    GramsEmptyIff(t, k);
    var g := Grams(t, k);
    assert g * g == g && g + g == g;
    assert (|g| as real) / (|g| as real) == 1.0;
  }

  // ---- structure_similarity ----

  /** `[。！？]`, the sentence separators. */
  predicate IsSentenceEnd(c: char) {
    c == '\U{3002}' || c == '\U{FF01}' || c == '\U{FF1F}'
  }

  /** `[，。；：！？]`, the counted punctuation. */
  predicate IsPunctuation(c: char) {
    || c == '\U{FF0C}' || c == '\U{3002}' || c == '\U{FF1B}'
    || c == '\U{FF1A}' || c == '\U{FF01}' || c == '\U{FF1F}'
  }

  /** `len(re.findall(r'\d+', t))`: the number of maximal digit runs. */
  function DigitRuns(t: string): nat
    decreases |t|
  {
    if |t| == 0 then 0
    else if IsDigit(t[0]) then 1 + DigitRuns(t[Leading(t, IsDigit)..])
    else DigitRuns(t[1..])
  }

  /** `extract_structure`: paragraph, sentence, number and punctuation counts, in that order. */
  function Features(t: string): (f: seq<nat>)
    ensures |f| == 4 && f[0] >= 1 && f[1] >= 1
  {
    [ |Split(t, "\n\n")|,
      Count(t, IsSentenceEnd) + 1,
      DigitRuns(t),
      Count(t, IsPunctuation) ]
  }

  function AbsDiff(x: nat, y: nat): nat {
    if x >= y then x - y else y - x
  }

  /** The per-feature terms `1 - |x - y| / (x + y)`, skipping features absent from both texts. */
  function FeatureTerms(f: seq<nat>, g: seq<nat>): (r: seq<real>)
    requires |f| == |g|
    ensures |r| <= |f|
    ensures forall k :: 0 <= k < |r| ==> 0.0 <= r[k] <= 1.0
  {
    if |f| == 0 then []
    else
      var head := if f[0] + g[0] > 0
        then
          DivUnit(AbsDiff(f[0], g[0]) as real, (f[0] + g[0]) as real);
          [1.0 - (AbsDiff(f[0], g[0]) as real) / ((f[0] + g[0]) as real)]
        else [];
      head + FeatureTerms(f[1..], g[1..])
  }

  function Sum(s: seq<real>): (r: real)
    requires forall k :: 0 <= k < |s| ==> 0.0 <= s[k] <= 1.0
    ensures 0.0 <= r <= |s| as real
  {
    if |s| == 0 then 0.0 else s[0] + Sum(s[1..])
  }


  /** `structure_similarity`: the mean of the feature terms (0 for an empty list). */
  function StructureSimilarity(a: string, b: string): (r: real)
    ensures 0.0 <= r <= 1.0
  {
    var terms := FeatureTerms(Features(a), Features(b));
    if |terms| > 0 then
      DivUnit(Sum(terms), |terms| as real);
      Sum(terms) / (|terms| as real)
    else 0.0
  }

  /** Paragraph counts are split counts, never 0, so the mean is never over an empty list. */
  lemma StructureTermsNonEmpty(a: string, b: string)
    ensures |FeatureTerms(Features(a), Features(b))| >= 1
  {
  }

  lemma {:induction false} FeatureTermsSymmetric(f: seq<nat>, g: seq<nat>)
    requires |f| == |g|
    ensures FeatureTerms(f, g) == FeatureTerms(g, f)
  {
    if |f| > 0 {
      FeatureTermsSymmetric(f[1..], g[1..]);
      assert AbsDiff(f[0], g[0]) == AbsDiff(g[0], f[0]);
      assert f[0] + g[0] == g[0] + f[0];
    }
  }

  lemma StructureSymmetric(a: string, b: string)
    ensures StructureSimilarity(a, b) == StructureSimilarity(b, a)
  {
    FeatureTermsSymmetric(Features(a), Features(b));
  }

  lemma {:induction false} FeatureTermsSelf(f: seq<nat>)
    ensures forall k :: 0 <= k < |FeatureTerms(f, f)| ==> FeatureTerms(f, f)[k] == 1.0
  {
    if |f| > 0 {
      FeatureTermsSelf(f[1..]);
    }
  }

  lemma {:induction false} SumOfOnes(s: seq<real>)
    requires forall k :: 0 <= k < |s| ==> s[k] == 1.0
    ensures Sum(s) == |s| as real
  {
    if |s| > 0 {
      SumOfOnes(s[1..]);
    }
  }

  /** Identical texts have identical features, every term is 1, and so is the mean. */
  lemma StructureIdentical(t: string)
    ensures StructureSimilarity(t, t) == 1.0
  {
    var terms := FeatureTerms(Features(t), Features(t));
    FeatureTermsSelf(Features(t));
    SumOfOnes(terms);
  }
}
